/**
  The book list component: the client-side title search, and the in-memory
  create / edit / update / delete of books through a five-field form.
  The new lists are computed by the pure functions below; the component's
  state and its event handlers are the class `BookListState`.
*/
module BookList {
  import opened Types
  import opened JsStrings
  import opened Seqs
  import BookApi

  /** The edit form; every field is free text, authors comma-separated. */
  datatype BookForm = BookForm(
    title: string,
    authors: string,
    description: string,
    category: string,
    publishedDate: string)

  const EmptyForm := BookForm("", "", "", "", "")

  const PlaceholderThumbnail := "/api/placeholder/200/300"

  // ---------------------------------------------------------------- search

  /** The lower-cased title contains the lower-cased query. */
  predicate TitleMatches(book: Book, query: string) {
    Includes(ToLower(book.volumeInfo.title), ToLower(query))
  }

  /** The books the grid shows: those matching the query, in list order. */
  function FilterByTitle(books: seq<Book>, query: string): (shown: seq<Book>)
    ensures IsSubsequence(shown, books)
    ensures forall b :: multiset(shown)[b] == if TitleMatches(b, query) then multiset(books)[b] else 0
  {
    Filter(books, b => TitleMatches(b, query))
  }

  /** The empty query shows every book. */
  lemma EmptyQueryShowsAll(books: seq<Book>)
    ensures FilterByTitle(books, "") == books
  {
    FilterKeepsAll(books, b => TitleMatches(b, ""));
  }

  /** The case of the query does not matter. */
  lemma QueryCaseIgnored(books: seq<Book>, query: string)
    ensures FilterByTitle(books, query) == FilterByTitle(books, ToLower(query))
  {
    ToLowerIdempotent(query);
    FilterSamePredicate(books, b => TitleMatches(b, query), b => TitleMatches(b, ToLower(query)));
  }

  // ---------------------------------------------------------------- authors field

  /** The authors field split at every comma, each piece trimmed. */
  function ParseAuthors(field: string): (authors: seq<string>)
    ensures |authors| == multiset(field)[','] + 1
    ensures forall i :: 0 <= i < |authors| ==> IsTrimmed(authors[i]) && ',' !in authors[i]
    ensures |authors| == |Split(field, ',')|
    ensures forall i :: 0 <= i < |authors| ==> authors[i] == Trim(Split(field, ',')[i])
  {
    var pieces := Split(field, ',');
    SplitPieces(field, ',');
    var authors := seq(|pieces|, i requires 0 <= i < |pieces| => Trim(pieces[i]));
    assert forall i :: 0 <= i < |authors| ==> ',' !in authors[i] by {
      forall i | 0 <= i < |authors| ensures ',' !in authors[i] {
        if ',' in authors[i] { TrimKeepsCharacters(pieces[i], ','); }
      }
    }
    authors
  }

  /** Authors as the edit form shows them. */
  function JoinAuthors(authors: seq<string>): (field: string)
    ensures authors == [] ==> field == ""
    ensures authors != [] ==> authors[0] <= field
  {
    Join(authors, ", ")
  }

  /** Joining comma-free names puts exactly one comma between each two. */
  lemma JoinedAuthorsCommas(authors: seq<string>)
    requires authors != []
    requires forall i :: 0 <= i < |authors| ==> ',' !in authors[i]
    ensures multiset(JoinAuthors(authors))[','] == |authors| - 1
  {
    assert ", " == [','] + [' '];
    JoinCount(authors, ", ", ',');
  }

  /** Each name after the first, with the space that follows a comma in `JoinAuthors`. */
  function Spaced(names: seq<string>): (r: seq<string>)
    ensures |r| == |names|
  {
    seq(|names|, i requires 0 <= i < |names| => " " + names[i])
  }

  lemma {:induction false} SplitJoinedAuthors(p: string, names: seq<string>)
    requires |names| >= 1 && ',' !in p
    requires forall i :: 0 <= i < |names| ==> ',' !in names[i]
    ensures Split(p + JoinAuthors(names), ',') == [p + names[0]] + Spaced(names[1..])
    decreases |names|
  {
    if |names| == 1 {
      assert ',' !in p + names[0];
    } else {
      var rest := names[1..];
      assert p + JoinAuthors(names) == (p + names[0]) + [','] + (" " + JoinAuthors(rest));
      assert ',' !in p + names[0];
      SplitAtFirst(p + names[0], ',', " " + JoinAuthors(rest));
      SplitJoinedAuthors(" ", rest);
      assert Spaced(rest) == [" " + rest[0]] + Spaced(rest[1..]);
    }
  }

  /** Showing a non-empty list of clean author names in the form and parsing it back gives the list. */
  lemma AuthorsRoundTrip(names: seq<string>)
    requires |names| >= 1
    requires forall i :: 0 <= i < |names| ==> IsTrimmed(names[i]) && ',' !in names[i]
    ensures ParseAuthors(JoinAuthors(names)) == names
  {
    var pieces := Split(JoinAuthors(names), ',');
    JoinedAuthorsPieces(names);
    assert pieces == [names[0]] + Spaced(names[1..]);
    var parsed := ParseAuthors(JoinAuthors(names));
    assert |parsed| == |names|;
    forall i | 0 <= i < |names| ensures parsed[i] == names[i] {
      assert parsed[i] == Trim(pieces[i]);
      TrimPiece(names, i);
    }
  }

  lemma JoinedAuthorsPieces(names: seq<string>)
    requires |names| >= 1
    requires forall i :: 0 <= i < |names| ==> ',' !in names[i]
    ensures Split(JoinAuthors(names), ',') == [names[0]] + Spaced(names[1..])
  {
    SplitJoinedAuthors("", names);
    assert "" + JoinAuthors(names) == JoinAuthors(names);
    assert "" + names[0] == names[0];
  }

  lemma TrimPiece(names: seq<string>, i: int)
    requires 0 <= i < |names| && IsTrimmed(names[i])
    ensures Trim(([names[0]] + Spaced(names[1..]))[i]) == names[i]
  {
    if i == 0 {
      assert "" + names[0] == names[0];
      TrimAfterBlank("", names[0]);
    } else {
      assert ([names[0]] + Spaced(names[1..]))[i] == " " + names[i];
      assert IsWhitespace(" "[0]);
      TrimAfterBlank(" ", names[i]);
    }
  }

  /** A book with an empty author list comes back from the form with one blank author. */
  lemma EmptyAuthorsComeBackBlank()
    ensures ParseAuthors(JoinAuthors([])) == [""]
  {
  }

  /** The authors field after one pass through save and edit. */
  function NormalizeAuthors(field: string): string {
    JoinAuthors(ParseAuthors(field))
  }

  /** A normalised authors field is stable under a second save and edit. */
  lemma NormalizeAuthorsIdempotent(field: string)
    ensures NormalizeAuthors(NormalizeAuthors(field)) == NormalizeAuthors(field)
  {
    AuthorsRoundTrip(ParseAuthors(field));
  }

  // ---------------------------------------------------------------- create

  /** The book "Add Book" creates from the form, under a caller-chosen id. */
  function NewBook(id: string, form: BookForm): (book: Book)
    ensures book.id == id && book.saleInfo == None
    ensures book.volumeInfo.imageLinks == Some(ImageLinks(PlaceholderThumbnail))
    ensures book.volumeInfo.categories == Some([form.category])
    ensures book.volumeInfo.title == form.title
    ensures book.volumeInfo.authors == Some(ParseAuthors(form.authors))
    ensures |book.volumeInfo.authors.value| == multiset(form.authors)[','] + 1
    ensures book.volumeInfo.description == Some(form.description)
    ensures book.volumeInfo.publishedDate == Some(form.publishedDate)
    ensures book.volumeInfo.pageCount == None && book.volumeInfo.averageRating == None
    ensures book.volumeInfo.language == None
  {
    Book(id,
      VolumeInfo(form.title, Some(ParseAuthors(form.authors)), Some(form.publishedDate),
        Some(form.description), Some([form.category]), Some(ImageLinks(PlaceholderThumbnail)),
        None, None, None),
      None)
  }

  /** Create puts the new book first; the old list follows unchanged. */
  function AddBook(books: seq<Book>, book: Book): (r: seq<Book>)
    ensures |r| == |books| + 1 && r[0] == book && r[1..] == books
  {
    [book] + books
  }

  // ---------------------------------------------------------------- edit and update

  /** The form filled from a book: authors joined, the first category, blanks for what is missing. */
  function EditForm(book: Book): (f: BookForm)
    ensures f.title == book.volumeInfo.title
    ensures book.volumeInfo.authors.Some? ==> f.authors == JoinAuthors(book.volumeInfo.authors.value)
    ensures book.volumeInfo.authors.None? ==> f.authors == ""
    ensures f.description == book.volumeInfo.description.GetOr("")
    ensures var cs := book.volumeInfo.categories;
      f.category == if cs.Some? && |cs.value| > 0 then cs.value[0] else ""
    ensures f.publishedDate == book.volumeInfo.publishedDate.GetOr("")
  {
    var info := book.volumeInfo;
    BookForm(
      info.title,
      match info.authors { case Some(names) => JoinAuthors(names) case None => "" },
      info.description.GetOr(""),
      match info.categories { case Some(cs) => if |cs| > 0 then cs[0] else "" case None => "" },
      info.publishedDate.GetOr(""))
  }

  /** The fields "Update Book" leaves alone: the id, the sale data and the rest of the volume info. */
  predicate KeepsUntouchedFields(before: Book, after: Book) {
    && after.id == before.id
    && after.saleInfo == before.saleInfo
    && after.volumeInfo.imageLinks == before.volumeInfo.imageLinks
    && after.volumeInfo.pageCount == before.volumeInfo.pageCount
    && after.volumeInfo.averageRating == before.volumeInfo.averageRating
    && after.volumeInfo.language == before.volumeInfo.language
  }

  /** A book rewritten with the form's title, authors, description, category and date. */
  function ApplyForm(book: Book, form: BookForm): (r: Book)
    ensures KeepsUntouchedFields(book, r)
    ensures r.volumeInfo.title == form.title
    ensures r.volumeInfo.authors == Some(ParseAuthors(form.authors))
    ensures r.volumeInfo.description == Some(form.description)
    ensures r.volumeInfo.categories == Some([form.category])
    ensures r.volumeInfo.publishedDate == Some(form.publishedDate)
    ensures EditForm(r) == form.(authors := NormalizeAuthors(form.authors))
  {
    var authors := ParseAuthors(form.authors);
    var r := book.(volumeInfo := book.volumeInfo.(
      title := form.title,
      authors := Some(authors),
      description := Some(form.description),
      categories := Some([form.category]),
      publishedDate := Some(form.publishedDate)));
    assert EditForm(r).authors == JoinAuthors(authors) == NormalizeAuthors(form.authors);
    assert EditForm(r).category == form.category;
    r
  }

  /** A book the form can show without loss. */
  predicate FormRepresentable(book: Book) {
    var info := book.volumeInfo;
    && info.authors.Some? && |info.authors.value| >= 1
    && (forall i :: 0 <= i < |info.authors.value| ==>
          IsTrimmed(info.authors.value[i]) && ',' !in info.authors.value[i])
    && info.description.Some? && info.publishedDate.Some?
    && info.categories.Some? && |info.categories.value| == 1
  }

  /** Opening the editor on a representable book and saving without changes gives the book back. */
  lemma EditThenSaveIsIdentity(book: Book)
    requires FormRepresentable(book)
    ensures ApplyForm(book, EditForm(book)) == book
  {
    var info := book.volumeInfo;
    var form := EditForm(book);
    assert form.authors == JoinAuthors(info.authors.value);
    AuthorsRoundTrip(info.authors.value);
    assert [info.categories.value[0]] == info.categories.value;
    var after := ApplyForm(book, form).volumeInfo;
    assert after.authors == info.authors;
    assert after.categories == info.categories;
    assert after.description == info.description && after.publishedDate == info.publishedDate;
    assert after == info;
  }

  /** Every created book can be edited and saved without change. */
  lemma NewBookIsRepresentable(id: string, form: BookForm)
    ensures FormRepresentable(NewBook(id, form))
  {
  }

  /** Update rewrites every book carrying the id and leaves the others, in place. */
  function UpdateById(books: seq<Book>, id: string, form: BookForm): (r: seq<Book>)
    ensures |r| == |books|
    ensures forall i :: 0 <= i < |books| ==> r[i].id == books[i].id
    ensures forall i :: 0 <= i < |books| && books[i].id != id ==> r[i] == books[i]
    ensures forall i :: 0 <= i < |books| && books[i].id == id ==> r[i] == ApplyForm(books[i], form)
  {
    seq(|books|, i requires 0 <= i < |books| => if books[i].id == id then ApplyForm(books[i], form) else books[i])
  }

  /** Updating an id no book carries changes nothing. */
  lemma UpdateAbsentIdIsNoop(books: seq<Book>, id: string, form: BookForm)
    requires forall b :: b in books ==> b.id != id
    ensures UpdateById(books, id, form) == books
  {
  }

  /** Saving the same form twice is saving it once. */
  lemma UpdateIdempotent(books: seq<Book>, id: string, form: BookForm)
    ensures UpdateById(UpdateById(books, id, form), id, form) == UpdateById(books, id, form)
  {
  }

  /**
    Editing a book and saving without changes leaves the list as it was,
    provided every book sharing its id is that same book.
  */
  lemma EditThenUpdateLeavesList(books: seq<Book>, book: Book)
    requires FormRepresentable(book)
    requires forall b :: b in books && b.id == book.id ==> b == book
    ensures UpdateById(books, book.id, EditForm(book)) == books
  {
    var r := UpdateById(books, book.id, EditForm(book));
    forall i | 0 <= i < |books| ensures r[i] == books[i] {
      if books[i].id == book.id {
        assert books[i] == book;
        EditThenSaveIsIdentity(book);
      }
    }
  }

  // ---------------------------------------------------------------- delete

  /** Delete drops every book carrying the id and keeps the rest in order. */
  function DeleteById(books: seq<Book>, id: string): (r: seq<Book>)
    ensures IsSubsequence(r, books)
    ensures forall b :: b in r ==> b.id != id
    ensures forall b: Book :: b.id != id ==> multiset(r)[b] == multiset(books)[b]
  {
    Filter(books, (b: Book) => b.id != id)
  }

  /** Deleting an id no book carries changes nothing. */
  lemma DeleteAbsentIdIsNoop(books: seq<Book>, id: string)
    requires forall b :: b in books ==> b.id != id
    ensures DeleteById(books, id) == books
  {
    FilterKeepsAll(books, (b: Book) => b.id != id);
  }

  // ---------------------------------------------------------------- title display

  /** `shown` is the title itself, or a proper prefix of it followed by "...". */
  predicate HonestTruncation(title: string, shown: string) {
    shown == title || (|shown| >= 3 && |shown| - 3 < |title| && shown == title[..|shown| - 3] + "...")
  }

  /** The card heading as written: on mobile titles over 10 characters show 11 and "...", elsewhere over 18 show 18. */
  function DisplayTitle(title: string, isMobile: bool): (shown: string)
    ensures isMobile && |title| <= 10 ==> shown == title
    ensures isMobile && |title| > 10 ==> shown == title[..11] + "..."
    ensures !isMobile && |title| <= 18 ==> shown == title
    ensures !isMobile && |title| > 18 ==> shown == title[..18] + "..."
  {
    if isMobile then
      if |title| > 10 then title[..11] + "..." else title
    else
      if |title| > 18 then title[..18] + "..." else title
  }

  /** On desktop the heading never adds "..." unless characters are hidden. */
  lemma DesktopTitleIsHonest(title: string)
    ensures HonestTruncation(title, DisplayTitle(title, false))
  {
  }

  /** On mobile an 11-character title is shown whole and still followed by "...". */
  lemma MobileTitleOffByOne()
    ensures DisplayTitle("Hello World", true) == "Hello World..."
    ensures !HonestTruncation("Hello World", DisplayTitle("Hello World", true))
  {
  }

  /** The heading with the mobile cut made at 10 characters, agreeing with its threshold. */
  function DisplayTitleIntended(title: string, isMobile: bool): (shown: string)
    ensures HonestTruncation(title, shown)
    ensures isMobile && |title| <= 10 ==> shown == title
    ensures isMobile && |title| > 10 ==> shown == title[..10] + "..."
    ensures !isMobile ==> shown == DisplayTitle(title, false)
  {
    if isMobile then
      if |title| > 10 then title[..10] + "..." else title
    else
      DisplayTitle(title, false)
  }

  // ---------------------------------------------------------------- component state

  /** The state of the BookList component and its event handlers, each one atomic step. */
  class BookListState {
    var books: seq<Book>
    var searchQuery: string
    var editingBook: Option<Book>
    var formData: BookForm

    constructor ()
      ensures books == [] && searchQuery == "" && editingBook == None && formData == EmptyForm
    {
      books := [];
      searchQuery := "";
      editingBook := None;
      formData := EmptyForm;
    }

    /** The books the grid renders. */
    function FilteredBooks(): (shown: seq<Book>)
      reads this
      ensures IsSubsequence(shown, books)
      ensures forall b :: b in shown <==> b in books && TitleMatches(b, searchQuery)
      ensures forall b :: multiset(shown)[b] == if TitleMatches(b, searchQuery) then multiset(books)[b] else 0
    {
      FilterByTitle(books, searchQuery)
    }

    /** The list is replaced by what `fetchBooks(category)` returned. */
    method LoadBooks(category: string, apiKey: Option<string>, server: string -> BookApi.FetchOutcome)
      modifies this
      ensures books == BookApi.FetchBooks(category, apiKey, server)
      ensures searchQuery == old(searchQuery) && editingBook == old(editingBook) && formData == old(formData)
    {
      books := BookApi.FetchBooks(category, apiKey, server);
    }

    /** Typing in the search box. */
    method SetSearchQuery(query: string)
      modifies this
      ensures searchQuery == query
      ensures books == old(books) && editingBook == old(editingBook) && formData == old(formData)
    {
      searchQuery := query;
    }

    /** Typing in one of the form inputs. */
    method SetFormData(form: BookForm)
      modifies this
      ensures formData == form
      ensures books == old(books) && searchQuery == old(searchQuery) && editingBook == old(editingBook)
    {
      formData := form;
    }

    /** "Add Book": the new book goes first and the form is cleared. */
    method CreateBook(newId: string)
      modifies this
      ensures books == AddBook(old(books), NewBook(newId, old(formData)))
      ensures formData == EmptyForm
      ensures searchQuery == old(searchQuery) && editingBook == old(editingBook)
    {
      books := AddBook(books, NewBook(newId, formData));
      formData := EmptyForm;
    }

    /** The pencil button: remember the book and fill the form from it. */
    method EditBook(book: Book)
      modifies this
      ensures editingBook == Some(book) && formData == EditForm(book)
      ensures books == old(books) && searchQuery == old(searchQuery)
    {
      editingBook := Some(book);
      formData := EditForm(book);
    }

    /** "Update Book": without a book being edited nothing happens; otherwise rewrite by id and stop editing. */
    method UpdateBook()
      modifies this
      ensures old(editingBook) == None ==> books == old(books) && editingBook == None
      ensures old(editingBook) != None ==>
        books == UpdateById(old(books), old(editingBook).value.id, old(formData)) && editingBook == None
      ensures formData == old(formData) && searchQuery == old(searchQuery)
    {
      if editingBook == None {
        return;
      }
      books := UpdateById(books, editingBook.value.id, formData);
      editingBook := None;
    }

    /** Closing the edit dialog. */
    method CloseEditDialog()
      modifies this
      ensures editingBook == None
      ensures books == old(books) && searchQuery == old(searchQuery) && formData == old(formData)
    {
      editingBook := None;
    }

    /** The trash button. */
    method DeleteBook(bookId: string)
      modifies this
      ensures books == DeleteById(old(books), bookId)
      ensures searchQuery == old(searchQuery) && editingBook == old(editingBook) && formData == old(formData)
    {
      books := DeleteById(books, bookId);
    }
  }
}
