/** The in-memory library of LibrarySystem.java: books, members and loans,
    with checkout, return, search and the overdue/fine rules.
    Dates are epoch days; the clock is the explicit parameter `today`. */
module LibrarySystem {
  import opened Text

  datatype Option<T> = None | Some(value: T)

  /** A loan runs for two weeks: LocalDate.plusWeeks(2). */
  const LoanPeriodDays := 14

  /** The fine for each overdue day, in cents ($0.50). */
  const FineCentsPerDay := 50

  /** A catalogued book. Only its availability flag ever changes, and the
      library compares books by identity. */
  class Book {
    const isbn: string
    const title: string
    const author: string
    var available: bool

    constructor (isbn: string, title: string, author: string)
      ensures this.isbn == isbn && this.title == title && this.author == author
      ensures available
    {
      this.isbn := isbn;
      this.title := title;
      this.author := author;
      available := true;
    }

    method SetAvailable(available: bool)
      modifies this
      ensures this.available == available
    {
      this.available := available;
    }
  }

  /** A registered member; never changed after creation. */
  datatype Member = Member(memberId: string, name: string, email: string, phone: string)

  /** A loan of one book to one member. Only the return date ever changes. */
  class Loan {
    const book: Book
    const member: Member
    const checkoutDate: int
    const dueDate: int
    var returnDate: Option<int>

    constructor (book: Book, member: Member, checkoutDate: int, dueDate: int)
      ensures this.book == book && this.member == member
      ensures this.checkoutDate == checkoutDate && this.dueDate == dueDate
      ensures returnDate == None
    {
      this.book := book;
      this.member := member;
      this.checkoutDate := checkoutDate;
      this.dueDate := dueDate;
      returnDate := None;
    }

    method SetReturnDate(date: int)
      modifies this
      ensures returnDate == Some(date)
    {
      returnDate := Some(date);
    }

    /** The book has not come back yet. */
    predicate IsOpen()
      reads this
    {
      returnDate.None?
    }

    /** Past the due date and not yet returned. */
    predicate IsOverdue(today: int)
      reads this
    {
      today > dueDate && returnDate.None?
    }

    /** The fine owed as of `today`, in cents: nothing unless overdue, then a flat
        rate for every day past the due date. */
    function CalculateFine(today: int): (cents: int)
      reads this
      ensures cents >= 0 && cents % FineCentsPerDay == 0
      ensures cents > 0 <==> IsOverdue(today)
      ensures IsOverdue(today) ==> cents == FineCentsPerDay * (today - dueDate)
    {
      if !IsOverdue(today) || returnDate.Some? then 0
      else FineCentsPerDay * (today - dueDate)
    }
  }

  /** An overdue loan is an open loan. */
  lemma OverdueIsOpen(l: Loan, today: int)
    requires l.IsOverdue(today)
    ensures l.IsOpen() && l.CalculateFine(today) >= FineCentsPerDay
  {
  }

  /** While a loan stays overdue its fine grows by the daily rate each day. */
  lemma FineAccruesDaily(l: Loan, today: int)
    requires l.IsOverdue(today)
    ensures l.IsOverdue(today + 1)
    ensures l.CalculateFine(today + 1) == l.CalculateFine(today) + FineCentsPerDay
  {
  }

  /** A returned loan owes nothing, whatever the date. */
  lemma ReturnedLoanOwesNothing(l: Loan, today: int)
    requires !l.IsOpen()
    ensures !l.IsOverdue(today) && l.CalculateFine(today) == 0
  {
  }

  /** A book matches a search term when its title or author contains the term
      ignoring case, or its ISBN contains the term exactly. */
  predicate SearchMatches(b: Book, term: string) {
    Contains(ToLower(b.title), ToLower(term)) ||
    Contains(ToLower(b.author), ToLower(term)) ||
    Contains(b.isbn, term)
  }

  /** The books of bs that match term, in catalog order. */
  function MatchingBooks(bs: seq<Book>, term: string): seq<Book> {
    if bs == [] then []
    else
      var rest := MatchingBooks(bs[..|bs| - 1], term);
      if SearchMatches(bs[|bs| - 1], term) then rest + [bs[|bs| - 1]] else rest
  }

  /** The open loans of ls, in loan order. */
  function CurrentOf(ls: seq<Loan>): seq<Loan>
    reads set l | l in ls
  {
    if ls == [] then []
    else
      var rest := CurrentOf(ls[..|ls| - 1]);
      if ls[|ls| - 1].IsOpen() then rest + [ls[|ls| - 1]] else rest
  }

  /** The overdue loans of ls, in loan order. */
  function OverdueOf(ls: seq<Loan>, today: int): seq<Loan>
    reads set l | l in ls
  {
    if ls == [] then []
    else
      var rest := OverdueOf(ls[..|ls| - 1], today);
      if ls[|ls| - 1].IsOverdue(today) then rest + [ls[|ls| - 1]] else rest
  }

  /** The index of the first open loan of book b in ls, or -1 when there is none. */
  function FirstOpenLoan(ls: seq<Loan>, b: Book?): (k: int)
    reads set l | l in ls
    ensures -1 <= k < |ls|
    ensures k >= 0 ==> ls[k].book == b && ls[k].IsOpen()
    ensures k >= 0 ==> forall j :: 0 <= j < k ==> !(ls[j].book == b && ls[j].IsOpen())
    ensures k < 0 ==> forall j :: 0 <= j < |ls| ==> !(ls[j].book == b && ls[j].IsOpen())
  {
    if ls == [] then -1
    else if ls[0].book == b && ls[0].IsOpen() then 0
    else
      var k := FirstOpenLoan(ls[1..], b);
      if k < 0 then -1 else k + 1
  }

  /** a can be obtained from b by deleting elements: it keeps b's order. */
  predicate IsSubsequence<T(==)>(a: seq<T>, b: seq<T>) {
    a == [] ||
    (b != [] &&
     ((a[|a| - 1] == b[|b| - 1] && IsSubsequence(a[..|a| - 1], b[..|b| - 1])) ||
      IsSubsequence(a, b[..|b| - 1])))
  }

  /** getCurrentLoans keeps exactly the open loans. */
  lemma {:induction false} CurrentOfMembers(ls: seq<Loan>)
    ensures forall l :: l in CurrentOf(ls) <==> (l in ls && l.IsOpen())
  {
    if ls != [] {
      CurrentOfMembers(ls[..|ls| - 1]);
      assert ls == ls[..|ls| - 1] + [ls[|ls| - 1]];
    }
  }

  /** getOverdueLoans keeps exactly the overdue loans. */
  lemma {:induction false} OverdueOfMembers(ls: seq<Loan>, today: int)
    ensures forall l :: l in OverdueOf(ls, today) <==> (l in ls && l.IsOverdue(today))
  {
    if ls != [] {
      OverdueOfMembers(ls[..|ls| - 1], today);
      assert ls == ls[..|ls| - 1] + [ls[|ls| - 1]];
    }
  }

  /** searchBooks keeps exactly the matching books. */
  lemma {:induction false} MatchingBooksMembers(bs: seq<Book>, term: string)
    ensures forall b :: b in MatchingBooks(bs, term) <==> (b in bs && SearchMatches(b, term))
  {
    if bs != [] {
      MatchingBooksMembers(bs[..|bs| - 1], term);
      assert bs == bs[..|bs| - 1] + [bs[|bs| - 1]];
    }
  }

  /** The current loans keep the order of the loan history. */
  lemma {:induction false} CurrentIsSubsequence(ls: seq<Loan>)
    ensures IsSubsequence(CurrentOf(ls), ls)
  {
    if ls != [] {
      CurrentIsSubsequence(ls[..|ls| - 1]);
      var r := CurrentOf(ls);
      if ls[|ls| - 1].IsOpen() {
        assert r[..|r| - 1] == CurrentOf(ls[..|ls| - 1]);
      }
    }
  }

  /** The search results keep catalog order. */
  lemma {:induction false} MatchingBooksIsSubsequence(bs: seq<Book>, term: string)
    ensures IsSubsequence(MatchingBooks(bs, term), bs)
  {
    if bs != [] {
      MatchingBooksIsSubsequence(bs[..|bs| - 1], term);
      var r := MatchingBooks(bs, term);
      if SearchMatches(bs[|bs| - 1], term) {
        assert r[..|r| - 1] == MatchingBooks(bs[..|bs| - 1], term);
      }
    }
  }

  /** The overdue loans are a subsequence of the current loans. */
  lemma {:induction false} OverdueWithinCurrent(ls: seq<Loan>, today: int)
    ensures IsSubsequence(OverdueOf(ls, today), CurrentOf(ls))
  {
    if ls != [] {
      var init := ls[..|ls| - 1];
      OverdueWithinCurrent(init, today);
      var o, c := OverdueOf(ls, today), CurrentOf(ls);
      if ls[|ls| - 1].IsOverdue(today) {
        assert o[..|o| - 1] == OverdueOf(init, today);
        assert c[..|c| - 1] == CurrentOf(init);
      } else if ls[|ls| - 1].IsOpen() {
        assert c[..|c| - 1] == CurrentOf(init);
      }
    }
  }

  /** Filtering the current loans by the overdue test gives the overdue loans. */
  lemma {:induction false} OverdueIsFilterOfCurrent(ls: seq<Loan>, today: int)
    ensures OverdueOf(CurrentOf(ls), today) == OverdueOf(ls, today)
  {
    if ls != [] {
      var init := ls[..|ls| - 1];
      OverdueIsFilterOfCurrent(init, today);
      var c := CurrentOf(ls);
      if ls[|ls| - 1].IsOpen() {
        assert c[..|c| - 1] == CurrentOf(init);
      }
    }
  }

  /** The empty search term matches the whole catalog. */
  lemma {:induction false} EmptySearchFindsAll(bs: seq<Book>)
    ensures MatchingBooks(bs, "") == bs
  {
    if bs != [] {
      EmptySearchFindsAll(bs[..|bs| - 1]);
      ContainsEmpty(bs[|bs| - 1].isbn);
      assert bs == bs[..|bs| - 1] + [bs[|bs| - 1]];
    }
  }

  /** A book that findBookByTitle can return for a title is also a hit when
      searching for that trimmed title. */
  lemma TitleMatchIsSearchHit(b: Book, title: string)
    requires EqualsIgnoreCase(b.title, Trim(title))
    ensures SearchMatches(b, Trim(title))
  {
    EqualsIgnoreCaseContains(b.title, Trim(title));
  }

  /** The library: three insertion-ordered lists. */
  class Library {
    var books: seq<Book>
    var members: seq<Member>
    var loans: seq<Loan>

    ghost function LoanObjects(): set<Loan>
      reads this
    {
      set l | l in loans
    }

    /** Every book the library knows of: catalogued or referenced by a loan. */
    ghost function Tracked(): set<Book>
      reads this
    {
      (set b | b in books) + (set l | l in loans :: l.book)
    }

    ghost predicate HasOpenLoan(b: Book)
      reads this, LoanObjects()
    {
      exists i :: 0 <= i < |loans| && loans[i].book == b && loans[i].IsOpen()
    }

    /** The library's invariant: each loan is a distinct object due two weeks after
        checkout, no book has two open loans, and a known book is unavailable
        exactly when an open loan references it. */
    ghost predicate Valid()
      reads this, LoanObjects(), Tracked()
    {
      (forall i, j :: 0 <= i < j < |loans| ==> loans[i] != loans[j]) &&
      (forall i :: 0 <= i < |loans| ==> loans[i].dueDate == loans[i].checkoutDate + LoanPeriodDays) &&
      (forall i, j :: 0 <= i < j < |loans| && loans[i].book == loans[j].book ==>
         !(loans[i].IsOpen() && loans[j].IsOpen())) &&
      (forall b :: b in Tracked() ==> (b.available <==> !HasOpenLoan(b)))
    }

    /** Under the invariant, a known book is available exactly when it has no
        open loan for returnBook to find. */
    lemma AvailableIffNothingToReturn(b: Book)
      requires Valid() && b in Tracked()
      ensures b.available <==> FirstOpenLoan(loans, b) < 0
    {
    }

    constructor ()
      ensures books == [] && members == [] && loans == []
      ensures Valid()
    {
      books := [];
      members := [];
      loans := [];
    }

    /** Appends a book to the catalog; duplicates are not checked. A book new to
        the library must be available, as every freshly constructed Book is. */
    method AddBook(book: Book)
      requires Valid()
      requires book in Tracked() || book.available
      modifies this
      ensures books == old(books) + [book]
      ensures members == old(members) && loans == old(loans)
      ensures Valid()
    {
      books := books + [book];
      assert Tracked() == old(Tracked()) + {book};
    }

    /** The first book whose title equals the trimmed input ignoring case, or null. */
    method FindBookByTitle(title: string) returns (r: Book?)
      ensures r == null <==> forall i :: 0 <= i < |books| ==> !EqualsIgnoreCase(books[i].title, Trim(title))
      ensures r != null ==>
                (exists i :: 0 <= i < |books| && books[i] == r &&
                   EqualsIgnoreCase(r.title, Trim(title)) &&
                   forall j :: 0 <= j < i ==> !EqualsIgnoreCase(books[j].title, Trim(title)))
    {
      for i := 0 to |books|
        invariant forall j :: 0 <= j < i ==> !EqualsIgnoreCase(books[j].title, Trim(title))
      {
        var book := books[i];
        if EqualsIgnoreCase(book.title, Trim(title)) {
          return book;
        }
      }
      return null;
    }

    /** Every catalogued book matching the term, in catalog order. */
    method SearchBooks(searchTerm: string) returns (results: seq<Book>)
      ensures results == MatchingBooks(books, searchTerm)
    {
      results := [];
      for i := 0 to |books|
        invariant results == MatchingBooks(books[..i], searchTerm)
      {
        var book := books[i];
        assert books[..i + 1][..i] == books[..i];
        if Contains(ToLower(book.title), ToLower(searchTerm)) ||
           Contains(ToLower(book.author), ToLower(searchTerm)) ||
           Contains(book.isbn, searchTerm) {
          results := results + [book];
        }
      }
      assert books[..|books|] == books;
    }

    /** Appends a member; duplicate IDs are not checked. */
    method AddMember(member: Member)
      requires Valid()
      modifies this
      ensures members == old(members) + [member]
      ensures books == old(books) && loans == old(loans)
      ensures Valid()
    {
      members := members + [member];
    }

    /** The first member whose ID equals the trimmed input ignoring case, or None. */
    method FindMemberById(memberId: string) returns (r: Option<Member>)
      ensures r == None <==> forall i :: 0 <= i < |members| ==> !EqualsIgnoreCase(members[i].memberId, Trim(memberId))
      ensures r.Some? ==>
                (exists i :: 0 <= i < |members| && members[i] == r.value &&
                   EqualsIgnoreCase(r.value.memberId, Trim(memberId)) &&
                   forall j :: 0 <= j < i ==> !EqualsIgnoreCase(members[j].memberId, Trim(memberId)))
    {
      for i := 0 to |members|
        invariant forall j :: 0 <= j < i ==> !EqualsIgnoreCase(members[j].memberId, Trim(memberId))
      {
        var member := members[i];
        if EqualsIgnoreCase(member.memberId, Trim(memberId)) {
          return Some(member);
        }
      }
      return None;
    }

    /** Lends an available book to a member on day `today`, due two weeks later.
        Refuses, changing nothing, when either is missing or the book is out. */
    method CheckoutBook(book: Book?, member: Option<Member>, today: int) returns (ok: bool)
      requires Valid()
      modifies this, book
      ensures Valid()
      ensures ok <==> book != null && member.Some? && old(book.available)
      ensures books == old(books) && members == old(members)
      ensures !ok ==> loans == old(loans) && (book != null ==> book.available == old(book.available))
      ensures ok ==>
                (!book.available &&
                 |loans| == |old(loans)| + 1 && loans[..|old(loans)|] == old(loans) &&
                 fresh(loans[|old(loans)|]) &&
                 loans[|old(loans)|].book == book && loans[|old(loans)|].member == member.value &&
                 loans[|old(loans)|].checkoutDate == today &&
                 loans[|old(loans)|].dueDate == today + LoanPeriodDays &&
                 loans[|old(loans)|].returnDate == None)
    {
      if book == null || member.None? {
        return false;
      }
      if !book.available {
        return false;
      }
      book.SetAvailable(false);
      var checkoutDate := today;
      var dueDate := checkoutDate + LoanPeriodDays;
      var loan := new Loan(book, member.value, checkoutDate, dueDate);
      loans := loans + [loan];
      assert loans[|loans| - 1] == loan;
      assert Tracked() == old(Tracked()) + {book};
      assert HasOpenLoan(book);
      forall b | b in Tracked() && b != book
        ensures HasOpenLoan(b) == old(HasOpenLoan(b))
      {
        if HasOpenLoan(b) {
          var i :| 0 <= i < |loans| && loans[i].book == b && loans[i].IsOpen();
          assert i < |old(loans)|;
          assert old(loans)[i] == loans[i];
        }
        if old(HasOpenLoan(b)) {
          var i :| 0 <= i < |old(loans)| && old(loans)[i].book == b && old(loans[i].IsOpen());
          assert loans[i] == old(loans)[i];
        }
      }
      return true;
    }

    /** Takes back a book: the first open loan of that book, in loan order, gets
        return date `today` and the book becomes available. Refuses, changing
        nothing, when the book has no open loan. */
    method ReturnBook(book: Book?, today: int) returns (ok: bool)
      requires Valid()
      modifies book, LoanObjects()
      ensures Valid()
      ensures ok <==> old(FirstOpenLoan(loans, book)) >= 0
      ensures ok ==>
                (book != null && book.available &&
                 loans[old(FirstOpenLoan(loans, book))].returnDate == Some(today))
      ensures forall i :: 0 <= i < |loans| && (!ok || i != old(FirstOpenLoan(loans, book))) ==>
                loans[i].returnDate == old(loans[i].returnDate)
      ensures !ok && book != null ==> book.available == old(book.available)
    {
      if book == null {
        return false;
      }
      for i := 0 to |loans|
        invariant forall j :: 0 <= j < i ==> !(loans[j].book == book && loans[j].IsOpen())
      {
        var loan := loans[i];
        if loan.book == book && loan.IsOpen() {
          assert FirstOpenLoan(loans, book) == i;
          loan.SetReturnDate(today);
          book.SetAvailable(true);
          forall b | b in Tracked()
            ensures b.available <==> !HasOpenLoan(b)
          {
            if HasOpenLoan(b) {
              var j :| 0 <= j < |loans| && loans[j].book == b && loans[j].IsOpen();
              assert j != i && old(loans[j].IsOpen());
            }
            if b != book && old(HasOpenLoan(b)) {
              var j :| 0 <= j < |loans| && loans[j].book == b && old(loans[j].IsOpen());
              assert j != i && loans[j].IsOpen();
            }
          }
          return true;
        }
      }
      return false;
    }

    /** The loans not yet returned, in loan order. */
    method GetCurrentLoans() returns (current: seq<Loan>)
      ensures current == CurrentOf(loans)
    {
      current := [];
      for i := 0 to |loans|
        invariant current == CurrentOf(loans[..i])
      {
        var loan := loans[i];
        assert loans[..i + 1][..i] == loans[..i];
        if loan.IsOpen() {
          current := current + [loan];
        }
      }
      assert loans[..|loans|] == loans;
    }

    /** The loans overdue on day `today`, in loan order. */
    method GetOverdueLoans(today: int) returns (overdue: seq<Loan>)
      ensures overdue == OverdueOf(loans, today)
    {
      overdue := [];
      for i := 0 to |loans|
        invariant overdue == OverdueOf(loans[..i], today)
      {
        var loan := loans[i];
        assert loans[..i + 1][..i] == loans[..i];
        if loan.IsOverdue(today) {
          overdue := overdue + [loan];
        }
      }
      assert loans[..|loans|] == loans;
    }

    /** Snapshots of the three lists; sequences are values, so later changes to the
        library do not reach them. */
    method GetAllBooks() returns (r: seq<Book>)
      ensures r == books
    {
      r := books;
    }

    method GetAllMembers() returns (r: seq<Member>)
      ensures r == members
    {
      r := members;
    }

    method GetAllLoans() returns (r: seq<Loan>)
      ensures r == loans
    {
      r := loans;
    }
  }
}
