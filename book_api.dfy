/** The catalog store of api/bookAPI.ts: the `booksDatabase` table, its
    queries (search, lookup, genres, statistics) and the operations that
    change it (borrow, return, add). */
module BookApi {
  import opened Common

  datatype Book = Book(
    id: int,
    title: string,
    author: string,
    cover: string,
    available: bool,
    genre: string,
    description: string,
    isbn: string)

  datatype Error = BookNotFound | NotAvailableForBorrowing | AlreadyAvailable

  /** The optional search filters. An absent query or genre is written "",
      which the source treats the same way (both are falsy). */
  datatype SearchFilters = SearchFilters(query: string, genre: string, available: Option<bool>)

  datatype CatalogStats = CatalogStats(
    totalBooks: nat,
    availableBooks: nat,
    borrowedBooks: int,
    genreDistribution: map<string, nat>)

  // ---------------------------------------------------------------- text

  /** toLowerCase, restricted to ASCII letters. */
  function LowerChar(c: char): char {
    if 'A' <= c <= 'Z' then (c as int + 32) as char else c
  }

  function Lower(s: string): (r: string)
    ensures |r| == |s|
    ensures forall i :: 0 <= i < |s| ==> r[i] == LowerChar(s[i])
  {
    if s == [] then [] else [LowerChar(s[0])] + Lower(s[1..])
  }

  /** String.prototype.includes: q occurs in s at some position. */
  predicate Includes(s: string, q: string) {
    q <= s || (s != [] && Includes(s[1..], q))
  }

  /** Includes is the substring test: q starts at some position of s. */
  lemma {:induction false} IncludesIsSubstring(s: string, q: string)
    ensures Includes(s, q) <==> exists i :: 0 <= i <= |s| && q <= s[i..]
  {
    if s != [] {
      IncludesIsSubstring(s[1..], q);
      if Includes(s[1..], q) {
        var i :| 0 <= i <= |s[1..]| && q <= s[1..][i..];
        assert s[1..][i..] == s[i + 1..];
      }
      if exists i :: 0 <= i <= |s| && q <= s[i..] {
        var i :| 0 <= i <= |s| && q <= s[i..];
        if i > 0 {
          assert s[1..][i - 1..] == s[i..];
        }
      }
    } else {
      assert forall i :: 0 <= i <= |s| ==> s[i..] == s;
    }
  }

  // ---------------------------------------------------------------- lookups

  /** findIndex by id. */
  function IndexOfId(db: seq<Book>, id: int): (r: Option<nat>)
    ensures r.None? <==> forall j :: 0 <= j < |db| ==> db[j].id != id
    ensures r.Some? ==> r.value < |db| && db[r.value].id == id
    ensures r.Some? ==> forall j :: 0 <= j < r.value ==> db[j].id != id
  {
    FindIndex(db, (b: Book) => b.id == id)
  }

  /** Tables with the same ids position by position find an id at the same place. */
  lemma IndexOfIdSameIds(a: seq<Book>, b: seq<Book>, id: int)
    requires |a| == |b|
    requires forall j :: 0 <= j < |a| ==> a[j].id == b[j].id
    ensures IndexOfId(a, id) == IndexOfId(b, id)
  {
  }

  /** getBookById: the first record with that id, or "Book not found". */
  function GetBookById(db: seq<Book>, id: int): (r: Result<Book, Error>)
    ensures r.Success? <==> exists j :: 0 <= j < |db| && db[j].id == id
    ensures r.Failure? ==> r.error == BookNotFound
    ensures r.Success? ==> r.data in db && r.data.id == id
    ensures r.Success? ==> forall j :: 0 <= j < |db| && db[j].id == id ==> IndexOf(db, r.data) <= j
  {
    match IndexOfId(db, id)
    case None => Failure(BookNotFound)
    case Some(i) =>
      assert forall j :: 0 <= j < i ==> db[j] != db[i];
      Success(db[i])
  }

  // ---------------------------------------------------------------- search

  predicate MatchesQuery(b: Book, query: string) {
    var q := Lower(query);
    Includes(Lower(b.title), q) || Includes(Lower(b.author), q)
  }

  /** A genre filter constrains only when present and not "All". */
  predicate GenreActive(f: SearchFilters) {
    f.genre != "" && f.genre != "All"
  }

  predicate QueryOk(f: SearchFilters, b: Book) { f.query != "" ==> MatchesQuery(b, f.query) }
  predicate GenreOk(f: SearchFilters, b: Book) { GenreActive(f) ==> b.genre == f.genre }
  predicate AvailabilityOk(f: SearchFilters, b: Book) { f.available.Some? ==> b.available == f.available.value }

  /** The conjunction of the active filters. */
  predicate Matches(f: SearchFilters, b: Book) {
    QueryOk(f, b) && GenreOk(f, b) && AvailabilityOk(f, b)
  }

  function QueryTest(query: string): Book -> bool { (b: Book) => MatchesQuery(b, query) }
  function GenreTest(genre: string): Book -> bool { (b: Book) => b.genre == genre }
  function AvailabilityTest(v: bool): Book -> bool { (b: Book) => b.available == v }

  function QueryOkTest(f: SearchFilters): Book -> bool { (b: Book) => QueryOk(f, b) }
  function GenreOkTest(f: SearchFilters): Book -> bool { (b: Book) => GenreOk(f, b) }
  function AvailabilityOkTest(f: SearchFilters): Book -> bool { (b: Book) => AvailabilityOk(f, b) }
  function QueryGenreOkTest(f: SearchFilters): Book -> bool { (b: Book) => QueryOk(f, b) && GenreOk(f, b) }
  function FiltersTest(f: SearchFilters): Book -> bool { (b: Book) => Matches(f, b) }

  /** The first stage of searchBooks: the query filter, when the query is non-empty. */
  function ByQuery(db: seq<Book>, f: SearchFilters): (r: seq<Book>)
    ensures r == Filter(db, QueryOkTest(f))
  {
    if f.query != "" then
      FilterExt(db, QueryTest(f.query), QueryOkTest(f));
      Filter(db, QueryTest(f.query))
    else
      FilterAll(db, QueryOkTest(f));
      db
  }

  /** The second stage: the genre filter, when the genre is present and not "All". */
  function ByGenre(db: seq<Book>, f: SearchFilters): (r: seq<Book>)
    ensures r == Filter(db, GenreOkTest(f))
  {
    if GenreActive(f) then
      FilterExt(db, GenreTest(f.genre), GenreOkTest(f));
      Filter(db, GenreTest(f.genre))
    else
      FilterAll(db, GenreOkTest(f));
      db
  }

  /** The third stage: the availability filter, when one is given. */
  function ByAvailability(db: seq<Book>, f: SearchFilters): (r: seq<Book>)
    ensures r == Filter(db, AvailabilityOkTest(f))
  {
    if f.available.Some? then
      FilterExt(db, AvailabilityTest(f.available.value), AvailabilityOkTest(f));
      Filter(db, AvailabilityTest(f.available.value))
    else
      FilterAll(db, AvailabilityOkTest(f));
      db
  }

  /** searchBooks: the three filters applied one after the other to a copy of the table. */
  function Search(db: seq<Book>, f: SearchFilters): (r: seq<Book>)
    ensures forall i :: 0 <= i < |r| ==> r[i] in db && Matches(f, r[i])
    ensures forall i :: 0 <= i < |db| && Matches(f, db[i]) ==> db[i] in r
    ensures f.query == "" && !GenreActive(f) && f.available.None? ==> r == db
  {
    SearchIsOneFilter(db, f);
    FilterMembers(db, FiltersTest(f));
    ByAvailability(ByGenre(ByQuery(db, f), f), f)
  }

  /** The chained filters equal one filter by the conjunction of the active filters. */
  lemma SearchIsOneFilter(db: seq<Book>, f: SearchFilters)
    ensures ByAvailability(ByGenre(ByQuery(db, f), f), f) == Filter(db, FiltersTest(f))
  {
    FilterFusion(db, QueryOkTest(f), GenreOkTest(f), QueryGenreOkTest(f));
    FilterFusion(db, QueryGenreOkTest(f), AvailabilityOkTest(f), FiltersTest(f));
  }

  /** The search result keeps the table's order. */
  lemma SearchKeepsOrder(db: seq<Book>, f: SearchFilters)
    ensures IsSubsequence(Search(db, f), db)
    ensures Search(db, f) == Filter(db, FiltersTest(f))
  {
    SearchIsOneFilter(db, f);
  }

  // ---------------------------------------------------------------- borrow / return

  function SetAvailable(db: seq<Book>, i: nat, v: bool): seq<Book>
    requires i < |db|
  {
    db[i := db[i].(available := v)]
  }

  /** borrowBook: the first record with the id must exist and be available;
      then only its `available` flag becomes false. */
  function Borrow(db: seq<Book>, id: int): (s: Step<Result<Book, Error>, seq<Book>>)
    ensures s.reply == Failure(BookNotFound) <==> forall j :: 0 <= j < |db| ==> db[j].id != id
    ensures s.reply == Failure(NotAvailableForBorrowing) <==>
              IndexOfId(db, id).Some? && !db[IndexOfId(db, id).value].available
    ensures s.reply != Failure(AlreadyAvailable)
    ensures s.reply.Failure? ==> s.next == db
    ensures s.reply.Success? ==>
              var i := IndexOfId(db, id).value;
              && |s.next| == |db|
              && s.next[i] == db[i].(available := false)
              && db[i].available
              && s.reply.data == s.next[i]
              && forall j :: 0 <= j < |db| && j != i ==> s.next[j] == db[j]
  {
    match IndexOfId(db, id)
    case None => Step(Failure(BookNotFound), db)
    case Some(i) =>
      if !db[i].available then Step(Failure(NotAvailableForBorrowing), db)
      else
        var next := SetAvailable(db, i, false);
        Step(Success(next[i]), next)
  }

  /** returnBook: the mirror image of Borrow. */
  function Return(db: seq<Book>, id: int): (s: Step<Result<Book, Error>, seq<Book>>)
    ensures s.reply == Failure(BookNotFound) <==> forall j :: 0 <= j < |db| ==> db[j].id != id
    ensures s.reply == Failure(AlreadyAvailable) <==>
              IndexOfId(db, id).Some? && db[IndexOfId(db, id).value].available
    ensures s.reply != Failure(NotAvailableForBorrowing)
    ensures s.reply.Failure? ==> s.next == db
    ensures s.reply.Success? ==>
              var i := IndexOfId(db, id).value;
              && |s.next| == |db|
              && s.next[i] == db[i].(available := true)
              && !db[i].available
              && s.reply.data == s.next[i]
              && forall j :: 0 <= j < |db| && j != i ==> s.next[j] == db[j]
  {
    match IndexOfId(db, id)
    case None => Step(Failure(BookNotFound), db)
    case Some(i) =>
      if db[i].available then Step(Failure(AlreadyAvailable), db)
      else
        var next := SetAvailable(db, i, true);
        Step(Success(next[i]), next)
  }

  /** A successful borrow followed by a return of the same id restores the table. */
  lemma BorrowThenReturn(db: seq<Book>, id: int)
    requires Borrow(db, id).reply.Success?
    ensures Return(Borrow(db, id).next, id).reply.Success?
    ensures Return(Borrow(db, id).next, id).next == db
  {
    var mid := Borrow(db, id).next;
    IndexOfIdSameIds(db, mid, id);
    var i := IndexOfId(db, id).value;
    assert Return(mid, id).next == mid[i := db[i]];
  }

  /** A successful return followed by a borrow of the same id restores the table. */
  lemma ReturnThenBorrow(db: seq<Book>, id: int)
    requires Return(db, id).reply.Success?
    ensures Borrow(Return(db, id).next, id).reply.Success?
    ensures Borrow(Return(db, id).next, id).next == db
  {
    var mid := Return(db, id).next;
    IndexOfIdSameIds(db, mid, id);
    var i := IndexOfId(db, id).value;
    assert Borrow(mid, id).next == mid[i := db[i]];
  }

  // ---------------------------------------------------------------- add

  predicate DistinctIds(db: seq<Book>) {
    forall i, j :: 0 <= i < j < |db| ==> db[i].id != db[j].id
  }

  /** Math.max over the ids of a non-empty table. */
  function MaxId(db: seq<Book>): (m: int)
    requires |db| > 0
    ensures forall j :: 0 <= j < |db| ==> db[j].id <= m
    ensures exists j :: 0 <= j < |db| && db[j].id == m
  {
    if |db| == 1 then db[0].id
    else
      var rest := MaxId(db[1..]);
      assert forall j :: 1 <= j < |db| ==> db[j] == db[1..][j - 1];
      if db[0].id >= rest then db[0].id else rest
  }

  /** addBook: the fields of `book` under the id max + 1, pushed at the end.
      (The id carried by `book` is overwritten, as the object spread does.) */
  function Add(db: seq<Book>, book: Book): (s: Step<Book, seq<Book>>)
    requires |db| > 0
    ensures |s.next| == |db| + 1
    ensures s.next[..|db|] == db && s.next[|db|] == s.reply
    ensures s.reply == book.(id := s.reply.id)
    ensures forall j :: 0 <= j < |db| ==> db[j].id < s.reply.id
    ensures exists j :: 0 <= j < |db| && db[j].id == s.reply.id - 1
    ensures DistinctIds(db) ==> DistinctIds(s.next)
  {
    var added := book.(id := MaxId(db) + 1);
    assert (db + [added])[..|db|] == db;
    Step(added, db + [added])
  }

  /** The added record is what a lookup of its id then finds. */
  lemma AddThenGet(db: seq<Book>, book: Book)
    requires |db| > 0
    ensures GetBookById(Add(db, book).next, Add(db, book).reply.id) == Success(Add(db, book).reply)
  {
    var s := Add(db, book);
    var next, id := s.next, s.reply.id;
    assert forall j :: 0 <= j < |db| ==> next[j].id != id;
    assert next[|db|].id == id;
  }

  // ---------------------------------------------------------------- genres and statistics

  function GenreList(db: seq<Book>): (g: seq<string>)
    ensures |g| == |db| && forall i :: 0 <= i < |db| ==> g[i] == db[i].genre
  {
    if db == [] then [] else GenreList(db[..|db| - 1]) + [db[|db| - 1].genre]
  }

  /** getGenres: "All", then each genre of the table once, in order of first appearance. */
  function GetGenres(db: seq<Book>): (r: seq<string>)
    ensures |r| >= 1 && r[0] == "All"
    ensures forall i :: 1 <= i < |r| ==> r[i] in GenreList(db)
    ensures forall g :: g in r[1..] <==> exists j :: 0 <= j < |db| && db[j].genre == g
    ensures NoDuplicates(r[1..])
    ensures forall i, j :: 1 <= i < j < |r| ==> IndexOf(GenreList(db), r[i]) < IndexOf(GenreList(db), r[j])
  {
    var gs := GenreList(db);
    var d := Distinct(gs);
    assert (["All"] + d)[1..] == d;
    assert forall g :: g in d <==> g in gs by {
      forall g | g in gs ensures g in d { var k :| 0 <= k < |gs| && gs[k] == g; }
    }
    ["All"] + d
  }

  predicate IsAvailable(b: Book) { b.available }
  predicate IsBorrowed(b: Book) { !b.available }

  /** The number of records of genre g. */
  function CountGenre(db: seq<Book>, g: string): (n: nat)
    ensures n == |Filter(db, GenreTest(g))|
  {
    if db == [] then 0 else CountGenre(db[..|db| - 1], g) + (if db[|db| - 1].genre == g then 1 else 0)
  }

  lemma {:induction false} CountGenreAbsent(db: seq<Book>, g: string)
    requires g !in GenreList(db)
    ensures CountGenre(db, g) == 0
  {
    if db != [] {
      var front := db[..|db| - 1];
      assert GenreList(db) == GenreList(front) + [db[|db| - 1].genre];
      CountGenreAbsent(front, g);
    }
  }

  /** One step of the reduce: acc[genre] = (acc[genre] || 0) + 1. */
  function Tally(acc: map<string, nat>, g: string): (m: map<string, nat>)
    ensures m.Keys == acc.Keys + {g}
    ensures m[g] == (if g in acc then acc[g] else 0) + 1
    ensures forall k :: k in acc && k != g ==> m[k] == acc[k]
  {
    acc[g := (if g in acc then acc[g] else 0) + 1]
  }

  /** The reduce over the table that builds the genre histogram. */
  function GenreDistribution(db: seq<Book>): (m: map<string, nat>)
    ensures forall g :: g in m <==> g in GenreList(db)
    ensures forall g :: g in m ==> m[g] == CountGenre(db, g)
  {
    if db == [] then map[]
    else
      var front := db[..|db| - 1];
      var g := db[|db| - 1].genre;
      assert GenreList(db) == GenreList(front) + [g];
      assert g !in GenreList(front) ==> CountGenre(front, g) == 0 by {
        if g !in GenreList(front) { CountGenreAbsent(front, g); }
      }
      Tally(GenreDistribution(front), g)
  }

  /** getStats: counts by availability and the genre histogram. */
  function GetStats(db: seq<Book>): (st: CatalogStats)
    ensures st.totalBooks == |db|
    ensures st.availableBooks + st.borrowedBooks == st.totalBooks
    ensures st.borrowedBooks == |Filter(db, IsBorrowed)|
    ensures forall g :: g in st.genreDistribution <==> exists j :: 0 <= j < |db| && db[j].genre == g
    ensures forall g :: g in st.genreDistribution ==> st.genreDistribution[g] == CountGenre(db, g)
  {
    var total := |db|;
    var availableBooks := |Filter(db, IsAvailable)|;
    FilterComplement(db, IsAvailable, IsBorrowed);
    var gs := GenreList(db);
    assert forall g :: g in gs <==> exists j :: 0 <= j < |db| && db[j].genre == g by {
      forall g | g in gs ensures exists j :: 0 <= j < |db| && db[j].genre == g {
        var k :| 0 <= k < |gs| && gs[k] == g;
      }
    }
    CatalogStats(total, availableBooks, total - availableBooks, GenreDistribution(db))
  }

  /** The sum of m's values at the given keys (absent keys count 0). */
  function SumAt(keys: seq<string>, m: map<string, nat>): nat {
    if keys == [] then 0
    else SumAt(keys[..|keys| - 1], m) + (var k := keys[|keys| - 1]; if k in m then m[k] else 0)
  }

  lemma {:induction false} SumAtTally(keys: seq<string>, m: map<string, nat>, g: string)
    requires NoDuplicates(keys)
    ensures SumAt(keys, Tally(m, g)) == SumAt(keys, m) + (if g in keys then 1 else 0)
  {
    if keys != [] {
      var front, last := keys[..|keys| - 1], keys[|keys| - 1];
      assert keys == front + [last];
      SumAtTally(front, m, g);
      assert last == g ==> g !in front;
    }
  }

  /** The histogram's values, summed over the distinct genres, give the table's size. */
  lemma {:induction false} DistributionSumsToTotal(db: seq<Book>)
    ensures SumAt(GetGenres(db)[1..], GetStats(db).genreDistribution) == GetStats(db).totalBooks
  {
    assert GetGenres(db)[1..] == Distinct(GenreList(db));
    DistinctHistogramSum(db);
  }

  lemma {:induction false} DistinctHistogramSum(db: seq<Book>)
    ensures SumAt(Distinct(GenreList(db)), GenreDistribution(db)) == |db|
  {
    if db != [] {
      var front, b := db[..|db| - 1], db[|db| - 1];
      DistinctHistogramSum(front);
      var gs := GenreList(front);
      assert GenreList(db) == gs + [b.genre];
      assert (gs + [b.genre])[..|gs|] == gs;
      var d := Distinct(gs);
      var h := GenreDistribution(front);
      SumAtTally(d, h, b.genre);
      if b.genre !in d {
        assert b.genre !in gs;
        assert b.genre !in h;
        var d' := d + [b.genre];
        assert d'[..|d|] == d;
        assert SumAt(d', Tally(h, b.genre)) == SumAt(d, Tally(h, b.genre)) + 1;
      }
    }
  }

  // ---------------------------------------------------------------- the store

  /** The module-level `booksDatabase` array that the BookAPI singleton works on. */
  class BookDatabase {
    var books: seq<Book>

    /** The table is never empty: the seed has records and nothing removes one. */
    ghost predicate Valid()
      reads this
    {
      |books| > 0
    }

    constructor (seed: seq<Book>)
      requires |seed| > 0
      ensures Valid() && books == seed
    {
      books := seed;
    }

    method BorrowBook(bookId: int) returns (r: Result<Book, Error>)
      modifies this
      ensures Step(r, books) == Borrow(old(books), bookId)
      ensures old(Valid()) ==> Valid()
    {
      var index := IndexOfId(books, bookId);
      if index.None? {
        return Failure(BookNotFound);
      }
      var i := index.value;
      var book := books[i];
      if !book.available {
        return Failure(NotAvailableForBorrowing);
      }
      books := books[i := book.(available := false)];
      r := Success(books[i]);
    }

    method ReturnBook(bookId: int) returns (r: Result<Book, Error>)
      modifies this
      ensures Step(r, books) == Return(old(books), bookId)
      ensures old(Valid()) ==> Valid()
    {
      var index := IndexOfId(books, bookId);
      if index.None? {
        return Failure(BookNotFound);
      }
      var i := index.value;
      var book := books[i];
      if book.available {
        return Failure(AlreadyAvailable);
      }
      books := books[i := book.(available := true)];
      r := Success(books[i]);
    }

    method AddBook(book: Book) returns (r: Book)
      requires Valid()
      modifies this
      ensures Valid()
      ensures Step(r, books) == Add(old(books), book)
    {
      var newId := MaxId(books) + 1;
      r := book.(id := newId);
      books := books + [r];
    }
  }
}
