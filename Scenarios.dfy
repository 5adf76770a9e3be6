/** Clients of the library that use only the contracts of its operations:
    what a sequence of calls is guaranteed to produce. */
module Scenarios {
  import opened Text
  import opened LibrarySystem

  /** A second checkout of a book that was available is refused. */
  method CheckoutTwice(lib: Library, book: Book, member: Member, today: int) returns (first: bool, second: bool)
    requires lib.Valid() && book.available
    modifies lib, book
    ensures first && !second
    ensures lib.Valid() && !book.available
    ensures lib.books == old(lib.books) && lib.members == old(lib.members)
    ensures |lib.loans| == |old(lib.loans)| + 1 && lib.loans[..|old(lib.loans)|] == old(lib.loans)
    ensures fresh(lib.loans[|old(lib.loans)|]) && lib.loans[|old(lib.loans)|].book == book
  {
    first := lib.CheckoutBook(book, Some(member), today);
    second := lib.CheckoutBook(book, Some(member), today);
  }

  /** A second return of a book that was checked out is refused. */
  method ReturnTwice(lib: Library, book: Book, today: int) returns (first: bool, second: bool)
    requires lib.Valid() && book in lib.Tracked() && !book.available
    modifies book, lib.LoanObjects()
    ensures first && !second
    ensures lib.Valid() && book.available
  {
    lib.AvailableIffNothingToReturn(book);
    first := lib.ReturnBook(book, today);
    lib.AvailableIffNothingToReturn(book);
    second := lib.ReturnBook(book, today);
  }

  /** One book and one member: checkout, checkout again, return, return again. */
  method LoanLifecycle(today: int) returns (c1: bool, c2: bool, r1: bool, r2: bool)
    ensures c1 && !c2 && r1 && !r2
  {
    var lib := new Library();
    var book := new Book("978-0451524935", "1984", "George Orwell");
    lib.AddBook(book);
    var member := Member("M001", "John Doe", "john@example.com", "555-0101");
    lib.AddMember(member);
    c1, c2 := CheckoutTwice(lib, book, member, today);
    assert lib.LoanObjects() == {lib.loans[0]};
    r1, r2 := ReturnTwice(lib, book, today + 3);
  }

  /** A loan due five days ago and not returned is overdue with a fine of $2.50. */
  method OverdueFine(today: int) returns (overdue: bool, cents: int)
    ensures overdue && cents == 250
  {
    var book := new Book("978-0451524935", "1984", "George Orwell");
    var member := Member("M001", "John Doe", "john@example.com", "555-0101");
    var loan := new Loan(book, member, today - 19, today - 5);
    overdue := loan.IsOverdue(today);
    cents := loan.CalculateFine(today);
  }

  /** What the console's "Add New Book" does: a new Book, appended to the catalog. */
  method AddNewBook(lib: Library, isbn: string, title: string, author: string) returns (book: Book)
    requires lib.Valid()
    modifies lib
    ensures fresh(book) && book.available && book.title == title
    ensures lib.Valid() && lib.books == old(lib.books) + [book]
    ensures lib.members == old(lib.members) && lib.loans == old(lib.loans)
  {
    book := new Book(isbn, title, author);
    lib.AddBook(book);
  }

  /** What the console's "Return Book" and "Check Out Book" do to find the book:
      the line read is trimmed, then the lookup trims it again. The second trim
      changes nothing, so the result is the lookup of the line as typed. */
  method FindBookFromConsole(lib: Library, line: string) returns (book: Book?)
    ensures book == null <==> forall i :: 0 <= i < |lib.books| ==> !EqualsIgnoreCase(lib.books[i].title, Trim(line))
    ensures book != null ==>
              (exists i :: 0 <= i < |lib.books| && lib.books[i] == book &&
                 EqualsIgnoreCase(book.title, Trim(line)) &&
                 forall j :: 0 <= j < i ==> !EqualsIgnoreCase(lib.books[j].title, Trim(line)))
  {
    var input := Trim(line);
    TrimIdempotent(line);
    book := lib.FindBookByTitle(input);
  }

  /** The first three sample books, appended to an empty library. */
  method AddFirstSampleBooks(lib: Library)
    requires lib.Valid() && lib.books == [] && lib.loans == []
    modifies lib
    ensures lib.Valid() && lib.loans == [] && lib.members == old(lib.members) && |lib.books| == 3
    ensures fresh(lib.books[1]) && lib.books[1].available && fresh(lib.books[2]) && lib.books[2].available
    ensures lib.books[0].title == "To Kill a Mockingbird" && lib.books[1].title == "1984"
    ensures lib.books[2].title == "The Great Gatsby"
  {
    var b0 := AddNewBook(lib, "978-0061120084", "To Kill a Mockingbird", "Harper Lee");
    var b1 := AddNewBook(lib, "978-0451524935", "1984", "George Orwell");
    var b2 := AddNewBook(lib, "978-0743273565", "The Great Gatsby", "F. Scott Fitzgerald");
    assert lib.books == [b0, b1, b2];
  }

  /** The five sample books, appended to an empty library. */
  method AddSampleBooks(lib: Library)
    requires lib.Valid() && lib.books == [] && lib.loans == []
    modifies lib
    ensures lib.Valid() && lib.loans == [] && lib.members == old(lib.members) && |lib.books| == 5
    ensures fresh(lib.books[1]) && lib.books[1].available && fresh(lib.books[2]) && lib.books[2].available
    ensures lib.books[0].title == "To Kill a Mockingbird" && lib.books[1].title == "1984"
    ensures lib.books[2].title == "The Great Gatsby"
    ensures lib.books[3].title == "The Hobbit" && lib.books[4].title == "Macbeth"
  {
    AddFirstSampleBooks(lib);
    ghost var first := lib.books;
    var b3 := AddNewBook(lib, "978-0544003415", "The Hobbit", "J.R.R. Tolkien");
    var b4 := AddNewBook(lib, "978-0743477109", "Macbeth", "William Shakespeare");
    assert lib.books == first + [b3, b4];
  }

  /** The catalog and membership of the console program's sample data. */
  method SampleCatalog() returns (lib: Library)
    ensures fresh(lib) && lib.Valid() && lib.loans == []
    ensures |lib.books| == 5 && |lib.members| == 3
    ensures fresh(lib.books[1]) && lib.books[1].available && fresh(lib.books[2]) && lib.books[2].available
    ensures lib.books[0].title == "To Kill a Mockingbird" && lib.books[1].title == "1984"
    ensures lib.books[2].title == "The Great Gatsby"
    ensures lib.members[0].memberId == "M001" && lib.members[1].memberId == "M002"
  {
    lib := new Library();
    AddSampleBooks(lib);
    lib.AddMember(Member("M001", "John Doe", "john@example.com", "555-0101"));
    lib.AddMember(Member("M002", "Jane Smith", "jane@example.com", "555-0102"));
    lib.AddMember(Member("M003", "Robert Johnson", "robert@example.com", "555-0103"));
  }

  /** Looking up "1984" in the sample catalog finds its second book. */
  method Find1984(lib: Library) returns (book: Book?)
    requires |lib.books| == 5
    requires lib.books[0].title == "To Kill a Mockingbird" && lib.books[1].title == "1984"
    ensures book == lib.books[1]
  {
    assert Trim("1984") == "1984" by {
      assert TrimLow("1984", 0) == 0 && TrimHigh("1984", 0, 4) == 4;
    }
    assert EqualsIgnoreCase("1984", "1984");
    book := lib.FindBookByTitle("1984");
  }

  /** Looking up "The Great Gatsby" skips the first two sample books and finds the third. */
  method FindGatsby(lib: Library) returns (book: Book?)
    requires |lib.books| == 5
    requires lib.books[0].title == "To Kill a Mockingbird" && lib.books[1].title == "1984"
    requires lib.books[2].title == "The Great Gatsby"
    ensures book == lib.books[2]
  {
    assert Trim("The Great Gatsby") == "The Great Gatsby" by {
      assert TrimLow("The Great Gatsby", 0) == 0;
      assert TrimHigh("The Great Gatsby", 0, 16) == 16;
    }
    assert EqualsIgnoreCase("The Great Gatsby", "The Great Gatsby");
    book := lib.FindBookByTitle("The Great Gatsby");
  }

  /** Looking up member "M001" finds the first member. */
  method FindM001(lib: Library) returns (member: Option<Member>)
    requires |lib.members| == 3 && lib.members[0].memberId == "M001"
    ensures member == Some(lib.members[0])
  {
    assert Trim("M001") == "M001" by {
      assert TrimLow("M001", 0) == 0 && TrimHigh("M001", 0, 4) == 4;
    }
    assert EqualsIgnoreCase("M001", "M001");
    member := lib.FindMemberById("M001");
  }

  /** The ID lookup ignores case and surrounding blanks: " m001 " matches "M001". */
  lemma MemberIdIgnoresCaseAndBlanks()
    ensures Trim(" m001 ") == "m001"
    ensures EqualsIgnoreCase("M001", Trim(" m001 "))
  {
    assert TrimLow(" m001 ", 0) == 1 by {
      assert TrimLow(" m001 ", 1) == 1;
    }
    assert TrimHigh(" m001 ", 1, 6) == 5;
    assert " m001 "[1..5] == "m001";
    assert LowerChar('M') == 'm';
  }

  /** Looking up member "M002" skips "M001" and finds the second member. */
  method FindM002(lib: Library) returns (member: Option<Member>)
    requires |lib.members| == 3
    requires lib.members[0].memberId == "M001" && lib.members[1].memberId == "M002"
    ensures member == Some(lib.members[1])
  {
    assert Trim("M002") == "M002" by {
      assert TrimLow("M002", 0) == 0 && TrimHigh("M002", 0, 4) == 4;
    }
    assert EqualsIgnoreCase("M002", "M002");
    assert !EqualsIgnoreCase("M001", "M002") by {
      assert LowerChar("M001"[3]) != LowerChar("M002"[3]);
    }
    member := lib.FindMemberById("M002");
  }

  /** The sample data of the console program: the catalog above, with "1984"
      lent to M001 and "The Great Gatsby" to M002. */
  method SampleData(today: int) returns (lib: Library)
    ensures lib.Valid() && |lib.loans| == 2
    ensures lib.loans[0].book.title == "1984" && lib.loans[0].member.memberId == "M001"
    ensures lib.loans[1].book.title == "The Great Gatsby" && lib.loans[1].member.memberId == "M002"
  {
    lib := SampleCatalog();
    var book1 := Find1984(lib);
    var book2 := FindGatsby(lib);
    var member1 := FindM001(lib);
    var member2 := FindM002(lib);
    if book1 != null && member1.Some? {
      var ok := lib.CheckoutBook(book1, member1, today);
    }
    if book2 != null && member2.Some? {
      var ok := lib.CheckoutBook(book2, member2, today);
    }
  }
}
