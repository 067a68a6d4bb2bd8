/**
 * Book records of the library tracker and the client-side sort order of the
 * book list (script.js, inside `renderBooksAndUpdateUI`).
 */
module Books {
  import opened Wrappers
  import opened Text
  import Sorting

  /** One element of a `readDays` array: a date string, or anything else an import let through. */
  datatype ReadEntry = DateEntry(date: string) | OtherEntry

  /**
   * The fields of a stored record other than its key. A field that is missing,
   * `null` or (for numbers) does not parse is `None`; `readDays` is `None`
   * when the stored value is not an array.
   */
  datatype BookData = BookData(
    title: Option<string>,
    author: Option<string>,
    bookType: Option<string>,
    isbn: Option<string>,
    publishedYear: Option<int>,
    rating: Option<real>,
    currentPage: Option<int>,
    notes: Option<string>,
    coverImageUrl: Option<string>,
    readDays: Option<seq<ReadEntry>>)

  /** A stored record: its auto-increment key and its fields. */
  datatype Book = Book(id: int, data: BookData)

  /** The choices of the sort box; anything else is `UnknownSort`. */
  datatype SortKey =
    | ById | ByTitle | ByAuthor | ByPublishedYear | ByRating | ByCurrentPage | ByReadDaysCount
    | UnknownSort

  function TextOr(f: Option<string>): string {
    match f
    case Some(s) => s
    case None => ""
  }

  /** `(a[key] || '').toLowerCase()` for the two text keys. */
  function TextKey(b: Book, key: SortKey): string
    requires key == ByTitle || key == ByAuthor
  {
    LowerStr(TextOr(if key == ByTitle then b.data.title else b.data.author))
  }

  /** `parseFloat(a[key]) || 0`: a missing or unparsable number counts as 0. */
  function NumberKey(b: Book, key: SortKey): real
    requires key == ByPublishedYear || key == ByRating || key == ByCurrentPage
  {
    match key
    case ByPublishedYear => b.data.publishedYear.GetOr(0) as real
    case ByRating => b.data.rating.GetOr(0.0)
    case ByCurrentPage => b.data.currentPage.GetOr(0) as real
  }

  /** The number of read days; a `readDays` that is not an array counts as 0. */
  function ReadDaysCount(b: Book): nat {
    match b.data.readDays
    case Some(days) => |days|
    case None => 0
  }

  /** `a.id > b.id ? -1 : 1`: the larger key first. */
  function IdOrder(a: Book, b: Book): int {
    if a.id > b.id then -1 else 1
  }

  predicate IsTextKey(key: SortKey) { key == ByTitle || key == ByAuthor }

  predicate IsNumberKey(key: SortKey) {
    key == ByPublishedYear || key == ByRating || key == ByCurrentPage
  }

  /** The comparator handed to `resultBooks.sort`: negative puts `a` before `b`. */
  function Compare(a: Book, b: Book, key: SortKey): (r: int)
    ensures r == -1 || r == 1
  {
    if IsTextKey(key) then
      var fa, fb := TextKey(a, key), TextKey(b, key);
      if StrLess(fa, fb) then -1 else if StrLess(fb, fa) then 1 else IdOrder(a, b)
    else if IsNumberKey(key) then
      var fa, fb := NumberKey(a, key), NumberKey(b, key);
      if fa < fb then 1 else if fa > fb then -1 else IdOrder(a, b)
    else if key == ByReadDaysCount then
      var ca, cb := ReadDaysCount(a), ReadDaysCount(b);
      if ca < cb then 1 else if ca > cb then -1 else IdOrder(a, b)
    else
      IdOrder(a, b)
  }

  /** `a` comes before `b` in the sorted list. */
  predicate Precedes(a: Book, b: Book, key: SortKey) {
    Compare(a, b, key) < 0
  }

  /** What `Precedes` means for each kind of key, stated without the comparator. */
  lemma PrecedesMeaning(a: Book, b: Book, key: SortKey)
    ensures IsTextKey(key) ==>
      (Precedes(a, b, key) <==>
        StrLess(TextKey(a, key), TextKey(b, key)) ||
        (TextKey(a, key) == TextKey(b, key) && a.id > b.id))
    ensures IsNumberKey(key) ==>
      (Precedes(a, b, key) <==>
        NumberKey(a, key) > NumberKey(b, key) ||
        (NumberKey(a, key) == NumberKey(b, key) && a.id > b.id))
    ensures key == ByReadDaysCount ==>
      (Precedes(a, b, key) <==>
        ReadDaysCount(a) > ReadDaysCount(b) ||
        (ReadDaysCount(a) == ReadDaysCount(b) && a.id > b.id))
    ensures !IsTextKey(key) && !IsNumberKey(key) && key != ByReadDaysCount ==>
      (Precedes(a, b, key) <==> a.id > b.id)
  {
    if IsTextKey(key) {
      var fa, fb := TextKey(a, key), TextKey(b, key);
      StrLessTotal(fa, fb);
      if StrLess(fa, fb) { StrLessAsymmetric(fa, fb); }
      if fa == fb { StrLessIrreflexive(fa); }
    }
  }

  /** The comparator never puts two books before each other. */
  lemma PrecedesAsymmetric(a: Book, b: Book, key: SortKey)
    requires Precedes(a, b, key)
    ensures !Precedes(b, a, key)
  {
    PrecedesMeaning(a, b, key);
    PrecedesMeaning(b, a, key);
    if IsTextKey(key) {
      var fa, fb := TextKey(a, key), TextKey(b, key);
      if StrLess(fa, fb) { StrLessAsymmetric(fa, fb); }
      if fa == fb { StrLessIrreflexive(fa); }
    }
  }

  /** For distinct keys the comparator is total: one of the two books comes first. */
  lemma PrecedesTotal(a: Book, b: Book, key: SortKey)
    requires a.id != b.id
    ensures Precedes(a, b, key) || Precedes(b, a, key)
  {
    PrecedesMeaning(a, b, key);
    PrecedesMeaning(b, a, key);
    if IsTextKey(key) {
      StrLessTotal(TextKey(a, key), TextKey(b, key));
    }
  }

  lemma PrecedesTransitive(a: Book, b: Book, c: Book, key: SortKey)
    requires Precedes(a, b, key) && Precedes(b, c, key)
    ensures Precedes(a, c, key)
  {
    PrecedesMeaning(a, b, key);
    PrecedesMeaning(b, c, key);
    PrecedesMeaning(a, c, key);
    if IsTextKey(key) {
      var fa, fb, fc := TextKey(a, key), TextKey(b, key), TextKey(c, key);
      if StrLess(fa, fb) && StrLess(fb, fc) { StrLessTransitive(fa, fb, fc); }
    }
  }

  /** The comparator as an ordering: `a` goes before `b`. */
  function BookOrder(key: SortKey): (Book, Book) -> bool {
    (a: Book, b: Book) => Precedes(a, b, key)
  }

  /** The comparator is a strict order on all books, whatever the key. */
  lemma BookOrderLaws(key: SortKey)
    ensures Sorting.Transitive(BookOrder(key))
    ensures Sorting.Asymmetric(BookOrder(key))
  {
    forall a, b, c | Precedes(a, b, key) && Precedes(b, c, key) ensures Precedes(a, c, key) {
      PrecedesTransitive(a, b, c, key);
    }
    forall a, b | Precedes(a, b, key) ensures !Precedes(b, a, key) {
      PrecedesAsymmetric(a, b, key);
    }
  }

  /** No two records share a key (the store's primary key is unique). */
  ghost predicate DistinctIds(s: seq<Book>) {
    forall i, j :: 0 <= i < j < |s| ==> s[i].id != s[j].id
  }

  /** Every book comes before every later one under the comparator. */
  ghost predicate Sorted(s: seq<Book>, key: SortKey) {
    forall i, j :: 0 <= i < j < |s| ==> Precedes(s[i], s[j], key)
  }

  /** `resultBooks.sort(comparator)`. */
  function SortBooks(s: seq<Book>, key: SortKey): seq<Book> {
    Sorting.Sort(BookOrder(key), s)
  }

  /** With unique keys the sort returns the same books, each before every later one. */
  lemma SortBooksCorrect(s: seq<Book>, key: SortKey)
    requires DistinctIds(s)
    ensures multiset(SortBooks(s, key)) == multiset(s)
    ensures Sorted(SortBooks(s, key), key)
    ensures DistinctIds(SortBooks(s, key))
  {
    BookOrderLaws(key);
    assert Sorting.TotalOn(BookOrder(key), s) by {
      forall i, j | 0 <= i < |s| && 0 <= j < |s| && s[i] != s[j]
        ensures Precedes(s[i], s[j], key) || Precedes(s[j], s[i], key)
      {
        PrecedesTotal(s[i], s[j], key);
      }
    }
    Sorting.SortStrictlySorted(BookOrder(key), s);
    var r := SortBooks(s, key);
    assert Sorting.StrictlySorted(BookOrder(key), r);
    forall i, j | 0 <= i < j < |r| ensures Precedes(r[i], r[j], key) {
      assert BookOrder(key)(r[i], r[j]);
    }
    forall i, j | 0 <= i < j < |r| ensures r[i].id != r[j].id {
      assert BookOrder(key)(r[i], r[j]);
      PrecedesAsymmetric(r[i], r[j], key);
      assert r[i] in multiset(s) && r[j] in multiset(s);
      var a :| 0 <= a < |s| && s[a] == r[i];
      var b :| 0 <= b < |s| && s[b] == r[j];
      assert a != b;
    }
  }

  /**
   * The sorted list depends only on which books are given, not on the order
   * the store returned them in.
   */
  lemma SortIgnoresInputOrder(p: seq<Book>, q: seq<Book>, key: SortKey)
    requires DistinctIds(p) && DistinctIds(q) && multiset(p) == multiset(q)
    ensures SortBooks(p, key) == SortBooks(q, key)
  {
    SortBooksCorrect(p, key);
    SortBooksCorrect(q, key);
    BookOrderLaws(key);
    var a, b := SortBooks(p, key), SortBooks(q, key);
    assert Sorting.StrictlySorted(BookOrder(key), a) by {
      forall i, j | 0 <= i < j < |a| ensures BookOrder(key)(a[i], a[j]) { }
    }
    assert Sorting.StrictlySorted(BookOrder(key), b) by {
      forall i, j | 0 <= i < j < |b| ensures BookOrder(key)(b[i], b[j]) { }
    }
    Sorting.StrictlySortedUnique(BookOrder(key), a, b);
  }

  /**
   * The sorted list, key by key: text keys ascending on the lower-cased field,
   * numeric keys and the read-day count descending, ties and the `id` and
   * unrecognised keys by larger id first.
   */
  lemma SortOrderByKey(s: seq<Book>, key: SortKey)
    requires DistinctIds(s)
    ensures var r := SortBooks(s, key);
      forall i, j :: 0 <= i < j < |r| ==>
        (IsTextKey(key) ==>
           StrLess(TextKey(r[i], key), TextKey(r[j], key)) ||
           (TextKey(r[i], key) == TextKey(r[j], key) && r[i].id > r[j].id)) &&
        (IsNumberKey(key) ==>
           NumberKey(r[i], key) >= NumberKey(r[j], key) &&
           (NumberKey(r[i], key) == NumberKey(r[j], key) ==> r[i].id > r[j].id)) &&
        (key == ByReadDaysCount ==>
           ReadDaysCount(r[i]) >= ReadDaysCount(r[j]) &&
           (ReadDaysCount(r[i]) == ReadDaysCount(r[j]) ==> r[i].id > r[j].id)) &&
        (!IsTextKey(key) && !IsNumberKey(key) && key != ByReadDaysCount ==> r[i].id > r[j].id)
  {
    SortBooksCorrect(s, key);
    var r := SortBooks(s, key);
    forall i, j | 0 <= i < j < |r| {
      PrecedesMeaning(r[i], r[j], key);
    }
  }
}
