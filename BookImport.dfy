/**
 * The tolerant record cleaning of `handleImport` (script.js), the store's
 * `bulkAdd` of the cleaned records, and the export that feeds it.
 */
module BookImport {
  import opened Wrappers
  import opened Books

  /** The `id` property of an imported object: absent, or present with its `parseInt` result. */
  datatype RawId = NoIdField | IdField(parsed: Option<int>)

  /**
   * One element of the imported JSON array. For a record, a text field is
   * `None` when missing or `null`; a numeric field is the result of parsing
   * it, `None` when missing, falsy or not a number; `readDays` is `None` when
   * it is not an array.
   */
  datatype RawEntry =
    | NotAnObject
    | NullEntry
    | RawRecord(
        title: Option<string>,
        author: Option<string>,
        bookType: Option<string>,
        readDays: Option<seq<ReadEntry>>,
        isbn: Option<string>,
        publishedYear: Option<int>,
        rating: Option<real>,
        currentPage: Option<int>,
        notes: Option<string>,
        coverImageUrl: Option<string>,
        id: RawId)

  /** A cleaned record: its fields, and its key when the file gave one that parses. */
  datatype CleanRecord = CleanRecord(id: Option<int>, data: BookData)

  /** `value || fallback`: a missing or empty string gives the fallback. */
  function OrElse(value: Option<string>, fallback: string): string {
    if value.None? || value.value == "" then fallback else value.value
  }

  /** Every field present, the type non-empty and `readDays` an array: what cleaning produces. */
  predicate Normalised(d: BookData) {
    d.title.Some? && d.author.Some? && d.bookType.Some? && d.bookType.value != "" &&
    d.isbn.Some? && d.publishedYear.Some? && d.rating.Some? && d.currentPage.Some? &&
    d.notes.Some? && d.coverImageUrl.Some? && d.readDays.Some?
  }

  /** The callback of `importedData.map`; `None` stands for the `null` it returns. */
  function Clean(e: RawEntry): (r: Option<CleanRecord>)
    ensures r.Some? <==> e.RawRecord?
    ensures r.Some? ==> Normalised(r.value.data)
    ensures r.Some? ==> (r.value.id.Some? <==> e.id.IdField? && e.id.parsed.Some?)
    ensures r.Some? && r.value.id.Some? ==> e.id == IdField(r.value.id)
    ensures r.Some? && e.title.None? ==> r.value.data.title == Some("")
    ensures r.Some? && e.bookType.None? ==> r.value.data.bookType == Some("offline")
    ensures r.Some? && e.readDays.None? ==> r.value.data.readDays == Some([])
    ensures r.Some? && e.readDays.Some? ==> r.value.data.readDays == e.readDays
    ensures r.Some? && e.rating.None? ==> r.value.data.rating == Some(0.0)
    ensures r.Some? && e.publishedYear.None? ==> r.value.data.publishedYear == Some(0)
    ensures r.Some? && e.currentPage.None? ==> r.value.data.currentPage == Some(0)
  {
    match e
    case RawRecord(title, author, bookType, readDays, isbn, year, rating, page, notes, cover, id) =>
      var data := BookData(
        Some(OrElse(title, "")), Some(OrElse(author, "")), Some(OrElse(bookType, "offline")),
        Some(OrElse(isbn, "")), Some(year.GetOr(0)), Some(rating.GetOr(0.0)), Some(page.GetOr(0)),
        Some(OrElse(notes, "")), Some(OrElse(cover, "")), Some(readDays.GetOr([])));
      var key := if id.IdField? then id.parsed else None;
      Some(CleanRecord(key, data))
    case _ => None
  }

  /** `importedData.map(...).filter(book => book !== null)`. */
  function CleanAll(entries: seq<RawEntry>): (r: seq<CleanRecord>)
    ensures |r| <= |entries|
    ensures forall i :: 0 <= i < |r| ==> Normalised(r[i].data)
  {
    if entries == [] then []
    else
      match Clean(entries[0])
      case Some(c) => [c] + CleanAll(entries[1..])
      case None => CleanAll(entries[1..])
  }

  /** The number of elements that are objects. */
  function RecordCount(entries: seq<RawEntry>): nat {
    if entries == [] then 0 else (if entries[0].RawRecord? then 1 else 0) + RecordCount(entries[1..])
  }

  /** Exactly the non-null objects survive cleaning; nothing else is dropped. */
  lemma {:induction false} CleanAllKeepsRecords(entries: seq<RawEntry>)
    ensures |CleanAll(entries)| == RecordCount(entries)
  {
    if entries != [] {
      CleanAllKeepsRecords(entries[1..]);
    }
  }

  /** The store after a `bulkAdd`, and how many records it refused. */
  datatype BulkResult = BulkResult(books: map<int, Book>, nextId: int, failed: nat)

  /** Every record sits under its own key, and the key generator is past every key. */
  ghost predicate KeysConsistent(books: map<int, Book>, nextId: int) {
    forall k :: k in books ==> books[k].id == k && k < nextId
  }

  /** Storing a record under its own key, below the generator, keeps the keys consistent. */
  lemma PutKeepsKeys(books: map<int, Book>, nextId: int, b: Book, next: int)
    requires KeysConsistent(books, nextId) && nextId <= next && b.id < next
    ensures KeysConsistent(books[b.id := b], next)
  {
  }

  /**
   * `db.books.bulkAdd(records)`, record by record: one without a key gets the
   * generator's next number; one with a key already in the store is refused;
   * an explicit key at or above the generator moves the generator past it
   * (the key generator rules of the Indexed Database API).
   */
  function BulkAdd(books: map<int, Book>, nextId: int, records: seq<CleanRecord>): (r: BulkResult)
    requires KeysConsistent(books, nextId)
    ensures KeysConsistent(r.books, r.nextId)
    ensures r.nextId >= nextId
    ensures books.Keys <= r.books.Keys
    ensures r.failed <= |records|
    decreases |records|
  {
    if records == [] then BulkResult(books, nextId, 0)
    else
      var rec := records[0];
      match rec.id
      case None =>
        BulkAdd(books[nextId := Book(nextId, rec.data)], nextId + 1, records[1..])
      case Some(k) =>
        if k in books then
          var r := BulkAdd(books, nextId, records[1..]);
          r.(failed := r.failed + 1)
        else
          BulkAdd(books[k := Book(k, rec.data)], if k >= nextId then k + 1 else nextId, records[1..])
  }

  /** Into an empty store, every record that is not refused is added. */
  lemma {:induction false} BulkAddCounts(books: map<int, Book>, nextId: int, records: seq<CleanRecord>)
    requires KeysConsistent(books, nextId)
    ensures var r := BulkAdd(books, nextId, records); |r.books| == |books| + |records| - r.failed
    decreases |records|
  {
    if records != [] {
      var rec := records[0];
      match rec.id
      case None =>
        assert nextId !in books;
        var added := books[nextId := Book(nextId, rec.data)];
        assert |added| == |books| + 1;
        PutKeepsKeys(books, nextId, Book(nextId, rec.data), nextId + 1);
        assert BulkAdd(books, nextId, records) == BulkAdd(added, nextId + 1, records[1..]);
        BulkAddCounts(added, nextId + 1, records[1..]);
      case Some(k) =>
        if k in books {
          BulkAddCounts(books, nextId, records[1..]);
        } else {
          var added := books[k := Book(k, rec.data)];
          var next := if k >= nextId then k + 1 else nextId;
          assert |added| == |books| + 1;
          PutKeepsKeys(books, nextId, Book(k, rec.data), next);
          assert BulkAdd(books, nextId, records) == BulkAdd(added, next, records[1..]);
          BulkAddCounts(added, next, records[1..]);
        }
    }
  }

  /** One exported record as it reads back from the file: every field kept, the key included. */
  function ExportRecord(b: Book): RawEntry {
    RawRecord(b.data.title, b.data.author, b.data.bookType, b.data.readDays, b.data.isbn,
      b.data.publishedYear, b.data.rating, b.data.currentPage, b.data.notes, b.data.coverImageUrl,
      IdField(Some(b.id)))
  }

  /** `JSON.stringify(allBooks)` read back by `JSON.parse`. */
  function ExportAll(s: seq<Book>): (r: seq<RawEntry>)
    ensures |r| == |s|
  {
    if s == [] then [] else [ExportRecord(s[0])] + ExportAll(s[1..])
  }

  /** A cleaned record read back from an export is the record itself, with its key. */
  lemma CleanExportedRecord(b: Book)
    requires Normalised(b.data)
    ensures Clean(ExportRecord(b)) == Some(CleanRecord(Some(b.id), b.data))
  {
  }

  /** The store contents a list of records describes. */
  function MapOf(s: seq<Book>): map<int, Book> {
    if s == [] then map[] else map[s[0].id := s[0]] + MapOf(s[1..])
  }

  /** Cleaning an export proceeds record by record. */
  lemma {:induction false} CleanExportCons(s: seq<Book>)
    requires s != [] && Normalised(s[0].data)
    ensures CleanAll(ExportAll(s)) == [CleanRecord(Some(s[0].id), s[0].data)] + CleanAll(ExportAll(s[1..]))
  {
    var t := [ExportRecord(s[0])] + ExportAll(s[1..]);
    assert ExportAll(s) == t;
    CleanExportedRecord(s[0]);
    assert t[1..] == ExportAll(s[1..]);
  }

  /** Adding the head of a list first, then the rest, gives the contents of the whole list. */
  lemma MapOfCons(acc: map<int, Book>, s: seq<Book>)
    requires s != []
    ensures acc[s[0].id := s[0]] + MapOf(s[1..]) == acc + MapOf(s)
  {
  }

  /**
   * Re-importing an export of records with distinct keys, all in normal form
   * and below the key generator, adds each of them back under its own key and
   * refuses none.
   */
  lemma {:induction false} ReimportExport(acc: map<int, Book>, nextId: int, s: seq<Book>)
    requires KeysConsistent(acc, nextId)
    requires DistinctIds(s)
    requires forall i :: 0 <= i < |s| ==> Normalised(s[i].data) && s[i].id < nextId && s[i].id !in acc
    ensures BulkAdd(acc, nextId, CleanAll(ExportAll(s))) == BulkResult(acc + MapOf(s), nextId, 0)
    decreases |s|
  {
    if s != [] {
      var b := s[0];
      assert Normalised(b.data) && b.id < nextId && b.id !in acc;
      CleanExportCons(s);
      var rest := s[1..];
      var acc' := acc[b.id := b];
      assert KeysConsistent(acc', nextId);
      assert DistinctIds(rest) by {
        forall i, j | 0 <= i < j < |rest| ensures rest[i].id != rest[j].id {
          assert rest[i] == s[i + 1] && rest[j] == s[j + 1];
        }
      }
      assert forall i :: 0 <= i < |rest| ==> Normalised(rest[i].data) && rest[i].id < nextId && rest[i].id !in acc' by {
        forall i | 0 <= i < |rest| ensures Normalised(rest[i].data) && rest[i].id < nextId && rest[i].id !in acc' {
          assert rest[i] == s[i + 1];
        }
      }
      ReimportExport(acc', nextId, rest);
      MapOfCons(acc, s);
    }
  }

  /** A list without repeated keys puts each of its records under its own key. */
  lemma {:induction false} MapOfMembers(s: seq<Book>)
    requires DistinctIds(s)
    ensures forall i :: 0 <= i < |s| ==> s[i].id in MapOf(s) && MapOf(s)[s[i].id] == s[i]
  {
    if s != [] {
      var rest := s[1..];
      assert DistinctIds(rest) by {
        forall i, j | 0 <= i < j < |rest| ensures rest[i].id != rest[j].id {
          assert rest[i] == s[i + 1] && rest[j] == s[j + 1];
        }
      }
      MapOfMembers(rest);
      forall i | 0 <= i < |s|
        ensures s[i].id in MapOf(s) && MapOf(s)[s[i].id] == s[i]
      {
        if i > 0 {
          assert s[i] == rest[i - 1];
          assert s[0].id != s[i].id;
        } else {
          assert forall j :: 0 <= j < |rest| ==> rest[j].id != s[0].id by {
            forall j | 0 <= j < |rest| ensures rest[j].id != s[0].id {
              assert rest[j] == s[j + 1];
            }
          }
          MapOfKeys(rest);
        }
      }
    }
  }

  /** The keys of the contents a list describes are the keys in the list. */
  lemma {:induction false} MapOfKeys(s: seq<Book>)
    ensures forall k :: k in MapOf(s) <==> exists i :: 0 <= i < |s| && s[i].id == k
  {
    if s != [] {
      MapOfKeys(s[1..]);
      forall k | k in MapOf(s)
        ensures exists i :: 0 <= i < |s| && s[i].id == k
      {
        if k != s[0].id {
          assert k in MapOf(s[1..]);
          var i :| 0 <= i < |s[1..]| && s[1..][i].id == k;
          assert s[i + 1].id == k;
        }
      }
      forall k | exists i :: 0 <= i < |s| && s[i].id == k
        ensures k in MapOf(s)
      {
        var i :| 0 <= i < |s| && s[i].id == k;
        if i > 0 {
          assert s[1..][i - 1].id == k;
        }
      }
    }
  }

  /**
   * `db.books.toArray()` as the export reads it: a list of records in
   * ascending key order that describes the store exactly.
   */
  ghost predicate ListsStore(l: seq<Book>, books: map<int, Book>) {
    MapOf(l) == books && forall i, j :: 0 <= i < j < |l| ==> l[i].id < l[j].id
  }

  /** Export followed by import restores a store whose records are in normal form, key generator included. */
  lemma ExportImportRestores(books: map<int, Book>, nextId: int, l: seq<Book>)
    requires KeysConsistent(books, nextId)
    requires forall k :: k in books ==> Normalised(books[k].data)
    requires ListsStore(l, books)
    ensures BulkAdd(map[], nextId, CleanAll(ExportAll(l))) == BulkResult(books, nextId, 0)
  {
    var none: map<int, Book> := map[];
    assert DistinctIds(l);
    MapOfMembers(l);
    forall i | 0 <= i < |l|
      ensures Normalised(l[i].data) && l[i].id < nextId && l[i].id !in none
    {
      assert l[i].id in books && books[l[i].id] == l[i];
    }
    ReimportExport(none, nextId, l);
    assert none + MapOf(l) == MapOf(l);
  }
}
