/**
 * The book store of script.js as an object: the records by key and the key
 * generator, with the actions that change them (mark as read, delete, the
 * add/edit form, import).
 */
module LibraryStore {
  import opened Wrappers
  import opened Text
  import opened Books
  import opened BookImport

  /** Today's date is added to a reading log at most once. */
  function MarkDay(days: seq<ReadEntry>, today: string): (r: seq<ReadEntry>)
    ensures DateEntry(today) in r
    ensures |days| <= |r| <= |days| + 1 && r[..|days|] == days
    ensures (DateEntry(today) in days) <==> r == days
    ensures (DateEntry(today) !in days) <==> r == days + [DateEntry(today)]
  {
    if DateEntry(today) in days then days else days + [DateEntry(today)]
  }

  /** No entry of the log appears twice. */
  predicate NoRepeats(days: seq<ReadEntry>) {
    forall i, j :: 0 <= i < j < |days| ==> days[i] != days[j]
  }

  /** Marking the same day twice changes nothing the second time. */
  lemma MarkDayIdempotent(days: seq<ReadEntry>, today: string)
    ensures MarkDay(MarkDay(days, today), today) == MarkDay(days, today)
  {
  }

  /** A log without repeats stays without repeats. */
  lemma MarkDayKeepsNoRepeats(days: seq<ReadEntry>, today: string)
    requires NoRepeats(days)
    ensures NoRepeats(MarkDay(days, today))
  {
  }

  /** The hidden key input of the form: empty for a new book, else its `parseInt` result. */
  datatype EditTarget = NewBook | EditId(parsed: Option<int>)

  /** The add/edit form as submitted; a numeric input is its parse result, `None` when not a number. */
  datatype BookForm = BookForm(
    title: string,
    author: string,
    bookType: string,
    target: EditTarget,
    isbn: string,
    rating: Option<real>,
    publishedYear: Option<int>,
    currentPage: Option<int>,
    notes: string,
    coverImageUrl: string)

  datatype FormError = TitleRequired | RatingOutOfRange

  datatype FormCheck = Accepted(data: BookData) | Refused(error: FormError)

  /** The rating the form carries: `parseFloat(...) || 0`. */
  function FormRating(form: BookForm): real {
    form.rating.GetOr(0.0)
  }

  /**
   * The checks of the submit handler and the record it builds: the title is
   * required after trimming, the rating must lie in [0, 5], and the text
   * fields other than the type are trimmed.
   */
  function CheckForm(form: BookForm): (r: FormCheck)
    ensures r == Refused(TitleRequired) <==> Trim(form.title) == ""
    ensures r == Refused(RatingOutOfRange) <==>
      Trim(form.title) != "" && !(0.0 <= FormRating(form) <= 5.0)
    ensures r.Accepted? <==> Trim(form.title) != "" && 0.0 <= FormRating(form) <= 5.0
    ensures r.Accepted? ==>
      r.data.title == Some(Trim(form.title)) && r.data.author == Some(Trim(form.author)) &&
      r.data.bookType == Some(form.bookType) && r.data.isbn == Some(Trim(form.isbn)) &&
      r.data.rating == Some(FormRating(form)) &&
      r.data.publishedYear == Some(form.publishedYear.GetOr(0)) &&
      r.data.currentPage == Some(form.currentPage.GetOr(0)) &&
      r.data.notes == Some(Trim(form.notes)) && r.data.coverImageUrl == Some(Trim(form.coverImageUrl)) &&
      r.data.readDays.None?
  {
    var title := Trim(form.title);
    var rating := FormRating(form);
    if title == "" then Refused(TitleRequired)
    else if rating < 0.0 || rating > 5.0 then Refused(RatingOutOfRange)
    else
      Accepted(BookData(
        Some(title), Some(Trim(form.author)), Some(form.bookType), Some(Trim(form.isbn)),
        Some(form.publishedYear.GetOr(0)), Some(rating), Some(form.currentPage.GetOr(0)),
        Some(Trim(form.notes)), Some(Trim(form.coverImageUrl)), None))
  }

  /** A record built from an accepted form, with a read log, is in normal form when a type was chosen. */
  lemma AcceptedFormNormalised(form: BookForm, days: seq<ReadEntry>)
    requires CheckForm(form).Accepted? && form.bookType != ""
    ensures Normalised(CheckForm(form).data.(readDays := Some(days)))
  {
  }

  datatype MarkOutcome = Marked | AlreadyMarked | NoSuchBook
  datatype DeleteOutcome = Deleted | DeleteCancelled | NothingToDelete
  datatype SubmitOutcome = FormRefused(error: FormError) | Added(id: int) | Updated(id: int) | InvalidId | BookMissing

  /** What `JSON.parse` made of the chosen file. */
  datatype ImportFile = Unparsable | NotAnArray | JsonArray(entries: seq<RawEntry>)

  datatype ImportOutcome =
    | ParseFailed
    | NotAList
    | NoValidRecords
    | ImportCancelled
    | Imported(count: nat)
    | ImportFailed(added: nat, refused: nat)

  /** The `books` table of the `MyLibraryDatabase` store: the records by key and the auto-increment generator. */
  class Library {
    var books: map<int, Book>
    var nextId: int

    ghost predicate Valid()
      reads this
    {
      KeysConsistent(books, nextId) && nextId >= 1
    }

    /** A freshly created database: empty, the generator at 1. */
    constructor()
      ensures Valid()
      ensures books == map[] && nextId == 1
    {
      books := map[];
      nextId := 1;
    }

    /** `markAsRead`: a missing log becomes empty; today's date is appended unless already there. */
    method MarkAsRead(id: int, today: string) returns (outcome: MarkOutcome)
      requires Valid()
      modifies this
      ensures Valid()
      ensures nextId == old(nextId)
      ensures id !in old(books) ==> outcome == NoSuchBook && books == old(books)
      ensures id in old(books) ==>
        var b := old(books)[id];
        var days := b.data.readDays;
        if days.Some? && DateEntry(today) in days.value then
          outcome == AlreadyMarked && books == old(books)
        else
          outcome == Marked &&
          books == old(books)[id := b.(data := b.data.(readDays := Some(MarkDay(days.GetOr([]), today))))]
    {
      if id !in books {
        return NoSuchBook;
      }
      var book := books[id];
      var days := if book.data.readDays.Some? then book.data.readDays.value else [];
      if DateEntry(today) !in days {
        days := days + [DateEntry(today)];
        books := books[id := book.(data := book.data.(readDays := Some(days)))];
        outcome := Marked;
      } else {
        outcome := AlreadyMarked;
      }
    }

    /** `deleteBook`: removes an existing record once the user confirms. */
    method DeleteBook(id: int, confirmed: bool) returns (outcome: DeleteOutcome)
      requires Valid()
      modifies this
      ensures Valid()
      ensures nextId == old(nextId)
      ensures id !in old(books) ==> outcome == NothingToDelete && books == old(books)
      ensures id in old(books) && !confirmed ==> outcome == DeleteCancelled && books == old(books)
      ensures id in old(books) && confirmed ==> outcome == Deleted && books == old(books) - {id}
    {
      if id !in books {
        return NothingToDelete;
      }
      if confirmed {
        books := books - {id};
        outcome := Deleted;
      } else {
        outcome := DeleteCancelled;
      }
    }

    /**
     * The submit handler of the add/edit form. A new record gets the next
     * key and an empty read log; an edit replaces the record under its key
     * and keeps its read log.
     */
    method Submit(form: BookForm) returns (outcome: SubmitOutcome)
      requires Valid()
      modifies this
      ensures Valid()
      ensures CheckForm(form).Refused? ==>
        outcome == FormRefused(CheckForm(form).error) && books == old(books) && nextId == old(nextId)
      ensures CheckForm(form).Accepted? && form.target == NewBook ==>
        old(nextId) !in old(books) && outcome == Added(old(nextId)) &&
        books == old(books)[old(nextId) := Book(old(nextId), CheckForm(form).data.(readDays := Some([])))] &&
        nextId == old(nextId) + 1
      ensures CheckForm(form).Accepted? && form.target == EditId(None) ==>
        outcome == InvalidId && books == old(books) && nextId == old(nextId)
      ensures CheckForm(form).Accepted? && form.target.EditId? && form.target.parsed.Some? ==>
        var k := form.target.parsed.value;
        nextId == old(nextId) &&
        if k in old(books) then
          outcome == Updated(k) &&
          books == old(books)[k := Book(k, CheckForm(form).data.(readDays := old(books)[k].data.readDays))]
        else
          outcome == BookMissing && books == old(books)
    {
      var check := CheckForm(form);
      if check.Refused? {
        return FormRefused(check.error);
      }
      var data := check.data;
      match form.target
      case EditId(parsed) =>
        if parsed.None? {
          return InvalidId;
        }
        var k := parsed.value;
        if k in books {
          PutKeepsKeys(books, nextId, Book(k, data.(readDays := books[k].data.readDays)), nextId);
          books := books[k := Book(k, data.(readDays := books[k].data.readDays))];
          outcome := Updated(k);
        } else {
          outcome := BookMissing;
        }
      case NewBook =>
        var id := nextId;
        PutKeepsKeys(books, nextId, Book(id, data.(readDays := Some([]))), nextId + 1);
        books := books[id := Book(id, data.(readDays := Some([])))];
        nextId := nextId + 1;
        outcome := Added(id);
    }

    /**
     * `handleImport` after reading the file: the cleaned records replace the
     * whole store once the user confirms. Clearing keeps the key generator.
     */
    method ImportBooks(file: ImportFile, confirmed: bool) returns (outcome: ImportOutcome)
      requires Valid()
      modifies this
      ensures Valid()
      ensures file.Unparsable? ==> outcome == ParseFailed && books == old(books) && nextId == old(nextId)
      ensures file.NotAnArray? ==> outcome == NotAList && books == old(books) && nextId == old(nextId)
      ensures file.JsonArray? && CleanAll(file.entries) == [] ==>
        outcome == NoValidRecords && books == old(books) && nextId == old(nextId)
      ensures file.JsonArray? && CleanAll(file.entries) != [] && !confirmed ==>
        outcome == ImportCancelled && books == old(books) && nextId == old(nextId)
      ensures file.JsonArray? && CleanAll(file.entries) != [] && confirmed ==>
        var cleaned := CleanAll(file.entries);
        var r := BulkAdd(map[], old(nextId), cleaned);
        books == r.books && nextId == r.nextId &&
        outcome == (if r.failed == 0 then Imported(|cleaned|) else ImportFailed(|cleaned| - r.failed, r.failed))
    {
      match file
      case Unparsable =>
        return ParseFailed;
      case NotAnArray =>
        return NotAList;
      case JsonArray(entries) =>
        var cleaned := CleanAll(entries);
        if |cleaned| == 0 {
          return NoValidRecords;
        }
        if !confirmed {
          return ImportCancelled;
        }
        books := map[];
        var r := BulkAdd(books, nextId, cleaned);
        books := r.books;
        nextId := r.nextId;
        outcome := if r.failed == 0 then Imported(|cleaned|) else ImportFailed(|cleaned| - r.failed, r.failed);
    }
  }
}
