# Library system: a verified model of the in-memory library

This project models the core of a small console library-management program
written in Java. The core is the `Library` aggregate and its entities:

- **books** are kept in catalog order;
- **members** are kept in registration order;
- **loans** are kept as a history in checkout order.

Books can be added, looked up by title and searched. Members can be added and
looked up by ID. A book can be checked out to a member and returned. The current
and overdue loans can be listed, and an overdue loan owes a daily fine.

The model is written in Dafny and follows the shape of the Java code:

- `Book` and `Loan` are classes. Their one mutable field (`available`,
  `returnDate`) is updated in place, as the Java setters do. The library compares
  books by reference: Java's `equals` is never overridden, so it is identity.
- `Member` is never changed after creation, so it is a datatype value.
- `Library` is a class with three sequence fields. Its lookups, its search and its
  loan listings are loops, proved against specification functions.

The module `Text` models the `java.lang.String` operations the core uses:
`trim()`, `toLowerCase()`, `equalsIgnoreCase()` and `contains()`.

The module `Scenarios` holds clients that use only the operations' contracts.
They cover checking out twice, returning twice, an overdue fine, and the
console program's sample data.

Conventions:

- Dates are whole days since the epoch. The clock `LocalDate.now()` is the
  explicit parameter `today`, and `plusWeeks(2)` is `+ 14`.
- Fines are whole cents: 50 cents per overdue day.
- A missing book is a `null` `Book?` reference, as in Java. A missing member is
  `None`.

The class invariant `Library.Valid()` states that every book the library knows of
(catalogued, or referenced by a loan) is unavailable exactly when an open loan
references it. It also states that no book has two open loans, that loans are
distinct objects, and that each loan is due 14 days after checkout. The
constructor establishes it, and every operation that changes state keeps it.

## Model

| member | source | states |
|---|---|---|
| `Text.ToLower` | LibrarySystem.java:131-132 | lower-casing keeps the length and lower-cases each ASCII letter in place |
| `Text.EqualsIgnoreCaseIsLowerEquality` | LibrarySystem.java:121 | two strings are equal ignoring case exactly when their lower-cased forms are equal (both directions) |
| `Text.TrimLow` | LibrarySystem.java:121 | trim's first scan stops at the first non-blank character; everything it skipped is blank |
| `Text.TrimHigh` | LibrarySystem.java:121 | trim's second scan stops after the last non-blank character without passing the first scan; everything it dropped is blank |
| `Text.Trim` | LibrarySystem.java:121 | trim returns one slice of the input that neither starts nor ends with a blank (a character up to U+0020); everything cut away on either side is blank |
| `Text.TrimIdempotent` | LibrarySystem.java:275 | trimming a trimmed string changes nothing, so the lookups' own trim of console input that is already trimmed has no effect |
| `Text.EqualsIgnoreCase` | LibrarySystem.java:121 | defines `equalsIgnoreCase`: equal lengths and equal characters after ASCII lower-casing |
| `Text.Contains` | LibrarySystem.java:131-133 | defines `contains`: the term occurs as a contiguous slice at some index of the string |
| `Text.ContainsEmpty` | LibrarySystem.java:131-133 | every string contains the empty term |
| `Text.ContainsSelf` | LibrarySystem.java:131-133 | every string contains itself |
| `Text.EqualsIgnoreCaseContains` | LibrarySystem.java:121-132 | strings equal ignoring case contain each other once lower-cased |
| `LibrarySystem.Book.constructor` | LibrarySystem.java:12-17 | a new book carries the given ISBN, title and author and starts available |
| `LibrarySystem.Book.SetAvailable` | LibrarySystem.java:25 | sets the availability flag to the given value |
| `LibrarySystem.Loan.constructor` | LibrarySystem.java:67-72 | a new loan records its book, member, checkout and due dates, with no return date |
| `LibrarySystem.Loan.SetReturnDate` | LibrarySystem.java:81-83 | stamps the given return date |
| `LibrarySystem.Loan.IsOverdue` | LibrarySystem.java:85-87 | defines `isOverdue`: the day is past the due date and the loan has no return date |
| `LibrarySystem.Loan.CalculateFine` | LibrarySystem.java:89-93 | the fine is never negative and is a whole number of daily rates; it is positive exactly when the loan is overdue, and then equals 50 cents for each day past the due date |
| `LibrarySystem.OverdueIsOpen` | LibrarySystem.java:85-87 | an overdue loan has no return date and owes at least one day's fine |
| `LibrarySystem.FineAccruesDaily` | LibrarySystem.java:85-93 | an overdue loan stays overdue the next day, and its fine grows by exactly 50 cents |
| `LibrarySystem.ReturnedLoanOwesNothing` | LibrarySystem.java:85-93 | a returned loan is never overdue and owes no fine, whatever the date |
| `LibrarySystem.FirstOpenLoan` | LibrarySystem.java:169-176 | gives the index of the first open loan of a book in loan order, or -1 exactly when the book has no open loan |
| `LibrarySystem.SearchMatches` | LibrarySystem.java:131-133 | defines the search test: the lower-cased title or author contains the lower-cased term, or the ISBN contains the term as given |
| `LibrarySystem.MatchingBooksMembers` | LibrarySystem.java:128-138 | a book is a search result exactly when it is in the catalog and its title or author contains the term ignoring case, or its ISBN contains the term |
| `LibrarySystem.MatchingBooksIsSubsequence` | LibrarySystem.java:128-138 | search results keep catalog order |
| `LibrarySystem.EmptySearchFindsAll` | LibrarySystem.java:128-138 | the empty term returns the whole catalog |
| `LibrarySystem.TitleMatchIsSearchHit` | LibrarySystem.java:119-138 | a book that the title lookup can return is also found by searching for the trimmed title |
| `LibrarySystem.CurrentOfMembers` | LibrarySystem.java:179-187 | a loan is current exactly when it is in the history and has no return date |
| `LibrarySystem.CurrentIsSubsequence` | LibrarySystem.java:179-187 | the current loans keep history order |
| `LibrarySystem.OverdueOfMembers` | LibrarySystem.java:189-197 | a loan is listed as overdue exactly when it is in the history and overdue on that day |
| `LibrarySystem.OverdueWithinCurrent` | LibrarySystem.java:179-197 | the overdue loans are a subsequence of the current loans |
| `LibrarySystem.OverdueIsFilterOfCurrent` | LibrarySystem.java:179-197 | filtering the current loans by the overdue test gives exactly the overdue loans |
| `LibrarySystem.Library.Valid` | LibrarySystem.java:155-177 | defines the invariant: every book in the catalog or referenced by a loan is unavailable exactly when an open loan references it; no book has two open loans; loans are distinct objects; each loan is due 14 days after checkout |
| `LibrarySystem.Library.AvailableIffNothingToReturn` | LibrarySystem.java:155-177 | under the invariant, a known book is available exactly when the return scan would find no open loan for it |
| `LibrarySystem.Library.constructor` | LibrarySystem.java:108-112 | a new library has no books, members or loans, and satisfies the invariant |
| `LibrarySystem.Library.AddBook` | LibrarySystem.java:115-117 | appends the book to the catalog with no duplicate check; members and loans are unchanged; the invariant is kept |
| `LibrarySystem.Library.FindBookByTitle` | LibrarySystem.java:119-126 | returns null exactly when no catalogued title equals the trimmed input ignoring case; otherwise returns the first book in catalog order whose title does |
| `LibrarySystem.Library.SearchBooks` | LibrarySystem.java:128-138 | returns exactly the catalog filtered by the match test, in catalog order |
| `LibrarySystem.Library.AddMember` | LibrarySystem.java:141-143 | appends the member with no duplicate check; books and loans are unchanged |
| `LibrarySystem.Library.FindMemberById` | LibrarySystem.java:145-152 | returns None exactly when no member ID equals the trimmed input ignoring case; otherwise returns the first such member |
| `LibrarySystem.Library.CheckoutBook` | LibrarySystem.java:155-164 | succeeds exactly when the book and member are present and the book is available. On success, the book becomes unavailable and exactly one new loan is appended, for that book and member, dated today, due today + 14, not returned. On failure nothing changes. The invariant is kept |
| `LibrarySystem.Library.ReturnBook` | LibrarySystem.java:166-177 | succeeds exactly when the book has an open loan. On success, the first open loan of that book in history order gets return date today, the book becomes available, and no other loan changes. On failure nothing changes. The invariant is kept |
| `LibrarySystem.Library.GetCurrentLoans` | LibrarySystem.java:179-187 | returns exactly the loans without a return date, in history order |
| `LibrarySystem.Library.GetOverdueLoans` | LibrarySystem.java:189-197 | returns exactly the loans overdue on that day, in history order |
| `LibrarySystem.Library.GetAllBooks` | LibrarySystem.java:200 | returns the catalog as a value snapshot and changes nothing |
| `LibrarySystem.Library.GetAllMembers` | LibrarySystem.java:201 | returns the members as a value snapshot and changes nothing |
| `LibrarySystem.Library.GetAllLoans` | LibrarySystem.java:202 | returns the loan history as a value snapshot and changes nothing |
| `Scenarios.CheckoutTwice` | LibrarySystem.java:155-164 | checking out an available book twice succeeds the first time and is refused the second time, with exactly one loan added |
| `Scenarios.ReturnTwice` | LibrarySystem.java:166-177 | returning a checked-out book twice succeeds the first time and is refused the second time; the book ends available |
| `Scenarios.LoanLifecycle` | LibrarySystem.java:155-177 | with one book and one member: checkout, checkout, return, return give true, false, true, false |
| `Scenarios.OverdueFine` | LibrarySystem.java:85-93 | an open loan due five days ago is overdue and owes 250 cents |
| `Scenarios.AddNewBook` | LibrarySystem.java:310-311 | the console's add-book step appends a new, available book |
| `Scenarios.FindBookFromConsole` | LibrarySystem.java:272-278 | looking up a title typed at the console, which is trimmed on input and again by the lookup, gives the same book as looking up the line with one trim |
| `Scenarios.AddFirstSampleBooks` | LibrarySystem.java:498-500 | the first three sample books are catalogued in order, available |
| `Scenarios.AddSampleBooks` | LibrarySystem.java:498-502 | the five sample books are catalogued in order: "To Kill a Mockingbird", "1984", "The Great Gatsby", "The Hobbit", "Macbeth" |
| `Scenarios.SampleCatalog` | LibrarySystem.java:496-507 | the sample catalog holds five books and three members and no loans |
| `Scenarios.Find1984` | LibrarySystem.java:510 | looking up "1984" finds the second sample book |
| `Scenarios.FindGatsby` | LibrarySystem.java:511 | looking up "The Great Gatsby" skips the first two sample books and finds the third |
| `Scenarios.FindM001` | LibrarySystem.java:512 | looking up "M001" finds the first member |
| `Scenarios.MemberIdIgnoresCaseAndBlanks` | LibrarySystem.java:147 | the input " m001 " trims to "m001", which matches the stored ID "M001" ignoring case |
| `Scenarios.FindM002` | LibrarySystem.java:513 | looking up "M002" skips "M001" and finds the second member |
| `Scenarios.SampleData` | LibrarySystem.java:496-521 | the sample data ends with two loans: "1984" to M001 and "The Great Gatsby" to M002, and the invariant holds |

## Left out

- The console shell is not part of this model. That covers the `main` menu loop,
  `Scanner` input and the re-prompting input checks (LibrarySystem.java:209-301),
  and the shell's own search of members by name. It is interactive I/O.
- Printing is not modelled: the `toString` methods and the table rendering with
  `String.format` and `printf`. They only produce text.
- `LocalDate.now()` is not modelled. Every operation that reads the clock takes
  `today` (epoch days) instead. In Java, `isOverdue` and `calculateFine` each
  read the clock separately; the model uses one date for both.
- `LibrarySystem.Loan.CalculateFine` returns integer cents, not the Java
  `double` dollars (`daysOverdue * 0.50`). So it has no floating-point rounding.
- `Text.ToLower` and `Text.EqualsIgnoreCase` fold only ASCII letters. Java's
  `toLowerCase` and `equalsIgnoreCase` also fold other Unicode letters and use
  the default locale. `Text.Trim` follows Java's rule exactly: characters up to
  U+0020 are blanks.
- `LibrarySystem.Loan.SetReturnDate` takes a date, not an optional one. So Java's
  `setReturnDate(null)`, which would reopen a returned loan, cannot be expressed.
  No caller in the program passes `null`.
- The global `library` and `scanner` singletons are not modelled. A `Library`
  is constructed explicitly.
- `LibrarySystem.Library.AddBook` requires that a book not already known to the
  library is available. Every freshly constructed `Book` is (line 16), and the
  console only ever adds fresh books. Without this, the invariant could not be
  kept.
- The operations that change state require `Valid()`. Java has no such
  precondition, but the constructor establishes `Valid()` and every operation
  keeps it, so every library reachable through these operations satisfies it.
- Members are values, so identity between two `Member` objects with equal
  fields is not modelled. The library never compares members.
- A search over the sample catalog (for example, that "1984" finds exactly one
  book) is not proved. The general search lemmas cover the behaviour.
- Some behaviour is preserved as the Java code has it, not fixed:
  - ISBNs and member IDs are not checked for uniqueness;
  - `ReturnBook` does not check which member returns the book;
  - `CheckoutBook` does not check that the member or the book is registered.
