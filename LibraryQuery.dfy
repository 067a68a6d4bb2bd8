/**
 * The book list pipeline of `renderBooksAndUpdateUI` (script.js): the store
 * query on `type`, the client-side sort, then the client-side filter and the
 * keyword search.
 */
module LibraryQuery {
  import opened Wrappers
  import opened Text
  import opened Seqs
  import opened Books

  /** The choices of the filter box; anything else is `UnknownFilter`. */
  datatype TypeFilter =
    | AllBooks | OnlineOnly | OfflineOnly
    | HasReadDays | NoReadDays | HasRating | HasCover
    | UnknownFilter

  /** `where('type').equals(selectedType)`, applied by the store for the two type choices. */
  predicate StoreSelects(b: Book, f: TypeFilter) {
    match f
    case OnlineOnly => b.data.bookType == Some("online")
    case OfflineOnly => b.data.bookType == Some("offline")
    case _ => true
  }

  /** The filters the store cannot apply, checked on the client. */
  predicate ClientSideActive(f: TypeFilter) {
    f != AllBooks && f != OnlineOnly && f != OfflineOnly
  }

  predicate HasReadDay(b: Book) {
    b.data.readDays.Some? && |b.data.readDays.value| > 0
  }

  predicate IsRated(b: Book) {
    b.data.rating.Some? && b.data.rating.value > 0.0
  }

  predicate HasCoverUrl(b: Book) {
    b.data.coverImageUrl.Some? && Trim(b.data.coverImageUrl.value) != ""
  }

  /** `matchFilterBasedOnSelectedType`. */
  predicate TypeMatch(b: Book, f: TypeFilter) {
    match f
    case HasReadDays => HasReadDay(b)
    case NoReadDays => !HasReadDay(b)
    case HasRating => IsRated(b)
    case HasCover => HasCoverUrl(b)
    case _ => true
  }

  /** `book.field && book.field.toLowerCase().includes(keyword)`: empty fields never match. */
  predicate FieldMatch(field: Option<string>, keyword: string) {
    field.Some? && field.value != "" && Contains(LowerStr(field.value), keyword)
  }

  /** `matchKeyword`, for a keyword that is already lower-cased. */
  predicate KeywordMatch(b: Book, keyword: string) {
    FieldMatch(b.data.title, keyword) || FieldMatch(b.data.author, keyword) ||
    FieldMatch(b.data.isbn, keyword) || FieldMatch(b.data.notes, keyword)
  }

  /** The callback handed to `resultBooks.filter`. */
  predicate Keep(b: Book, f: TypeFilter, keyword: string) {
    (if ClientSideActive(f) then TypeMatch(b, f) else true) && KeywordMatch(b, keyword)
  }

  function StoreQuery(books: seq<Book>, f: TypeFilter): seq<Book> {
    Filter((b: Book) => StoreSelects(b, f), books)
  }

  /** The visible list: store query, sort, then filter with the lower-cased keyword. */
  function Query(books: seq<Book>, f: TypeFilter, keyword: string, key: SortKey): seq<Book> {
    var kw := LowerStr(keyword);
    Filter((b: Book) => Keep(b, f, kw), SortBooks(StoreQuery(books, f), key))
  }

  /** Everything the pipeline asks of a book before showing it. */
  predicate Visible(b: Book, f: TypeFilter, kw: string) {
    StoreSelects(b, f) && Keep(b, f, kw)
  }

  /**
   * The visible list is an order-preserving sub-list of the sorted list, is
   * itself sorted, and shows no id twice.
   */
  lemma QuerySorted(books: seq<Book>, f: TypeFilter, keyword: string, key: SortKey)
    requires DistinctIds(books)
    ensures var r := Query(books, f, keyword, key);
      IsSubsequence(r, SortBooks(StoreQuery(books, f), key)) && Sorted(r, key) && DistinctIds(r)
  {
    var kw := LowerStr(keyword);
    var pre := StoreQuery(books, f);
    FilterKeepsDistinctIds((b: Book) => StoreSelects(b, f), books);
    SortBooksCorrect(pre, key);
    var sorted := SortBooks(pre, key);
    var keep := (b: Book) => Keep(b, f, kw);
    var r := Filter(keep, sorted);
    FilterIsSubsequence(keep, sorted);
    FilterKeepsDistinctIds(keep, sorted);
    assert Chain(BookOrder(key), sorted) by {
      forall i, j | 0 <= i < j < |sorted| ensures BookOrder(key)(sorted[i], sorted[j]) { }
    }
    SubsequenceKeepsChain(BookOrder(key), r, sorted);
    forall i, j | 0 <= i < j < |r| ensures Precedes(r[i], r[j], key) {
      assert BookOrder(key)(r[i], r[j]);
    }
  }

  /** The visible list holds exactly the given books that pass every test of the pipeline. */
  lemma QueryMembers(books: seq<Book>, f: TypeFilter, keyword: string, key: SortKey)
    ensures var r := Query(books, f, keyword, key);
      |r| <= |books| &&
      forall b :: b in r <==> b in books && Visible(b, f, LowerStr(keyword))
  {
    var kw := LowerStr(keyword);
    var pre := StoreQuery(books, f);
    var sorted := SortBooks(pre, key);
    var r := Filter((b: Book) => Keep(b, f, kw), sorted);
    forall b ensures b in r <==> b in books && Visible(b, f, kw) {
      assert b in sorted <==> b in multiset(pre);
    }
  }

  lemma {:induction false} FilterKeepsDistinctIds(p: Book -> bool, s: seq<Book>)
    requires DistinctIds(s)
    ensures DistinctIds(Filter(p, s))
    decreases |s|
  {
    if s != [] {
      assert DistinctIds(s[1..]) by {
        forall i, j | 0 <= i < j < |s[1..]| ensures s[1..][i].id != s[1..][j].id {
          assert s[1..][i] == s[i + 1] && s[1..][j] == s[j + 1];
        }
      }
      FilterKeepsDistinctIds(p, s[1..]);
      var t := Filter(p, s[1..]);
      forall j | 0 <= j < |t| ensures t[j].id != s[0].id {
        var k :| 0 <= k < |s[1..]| && s[1..][k] == t[j];
        assert s[k + 1] == t[j];
      }
    }
  }

  /** Outside the two type choices the store query returns every book. */
  lemma StoreQueryKeepsAll(books: seq<Book>, f: TypeFilter)
    requires f != OnlineOnly && f != OfflineOnly
    ensures StoreQuery(books, f) == books
  {
    FilterKeepsAll((b: Book) => StoreSelects(b, f), books);
  }

  /** `has-rating` shows exactly the matching books whose rating is above 0. */
  lemma HasRatingShowsRated(books: seq<Book>, keyword: string, key: SortKey)
    ensures forall b :: b in Query(books, HasRating, keyword, key) <==>
      b in books && IsRated(b) && KeywordMatch(b, LowerStr(keyword))
  {
    ClientFilterMembers(books, HasRating, keyword, key);
  }

  /** `has-cover` shows exactly the matching books whose cover URL is a non-blank string. */
  lemma HasCoverShowsCovered(books: seq<Book>, keyword: string, key: SortKey)
    ensures forall b :: b in Query(books, HasCover, keyword, key) <==>
      b in books && HasCoverUrl(b) && KeywordMatch(b, LowerStr(keyword))
  {
    ClientFilterMembers(books, HasCover, keyword, key);
  }

  /** A filter checked on the client shows the matching books that pass its test. */
  lemma ClientFilterMembers(books: seq<Book>, f: TypeFilter, keyword: string, key: SortKey)
    requires ClientSideActive(f)
    ensures forall b :: b in Query(books, f, keyword, key) <==>
      b in books && TypeMatch(b, f) && KeywordMatch(b, LowerStr(keyword))
  {
    var kw := LowerStr(keyword);
    var r := Query(books, f, keyword, key);
    QueryMembers(books, f, keyword, key);
    forall b ensures b in r <==> b in books && TypeMatch(b, f) && KeywordMatch(b, kw) {
      assert Visible(b, f, kw) == (TypeMatch(b, f) && KeywordMatch(b, kw));
    }
  }

  /** `online` and `offline` select on the stored `type`. */
  lemma TypeChoicesSelectType(books: seq<Book>, keyword: string, key: SortKey)
    ensures forall b :: b in Query(books, OnlineOnly, keyword, key) <==>
      b in books && b.data.bookType == Some("online") && KeywordMatch(b, LowerStr(keyword))
    ensures forall b :: b in Query(books, OfflineOnly, keyword, key) <==>
      b in books && b.data.bookType == Some("offline") && KeywordMatch(b, LowerStr(keyword))
  {
    QueryMembers(books, OnlineOnly, keyword, key);
    QueryMembers(books, OfflineOnly, keyword, key);
  }

  /**
   * `has-read-days` and `no-read-days` split the list `all` shows: every book
   * of it appears under exactly one of the two, and the counts add up.
   */
  lemma ReadDayFiltersPartition(books: seq<Book>, keyword: string, key: SortKey)
    ensures var all := Query(books, AllBooks, keyword, key);
      var has := Query(books, HasReadDays, keyword, key);
      var no := Query(books, NoReadDays, keyword, key);
      |has| + |no| == |all| &&
      multiset(has) + multiset(no) == multiset(all) &&
      (forall b :: b in all ==> (b in has <==> HasReadDay(b)) && (b in no <==> !HasReadDay(b)))
  {
    var all := Query(books, AllBooks, keyword, key);
    var has := Query(books, HasReadDays, keyword, key);
    var no := Query(books, NoReadDays, keyword, key);
    ReadDayQueriesFilterAll(books, keyword, key);
    FilterPartition(HasReadDay, NoReadDay, all);
    forall b | b in all
      ensures (b in has <==> HasReadDay(b)) && (b in no <==> !HasReadDay(b))
    {
      var i :| 0 <= i < |all| && all[i] == b;
      if b in has {
        var j :| 0 <= j < |has| && has[j] == b;
      }
      if b in no {
        var j :| 0 <= j < |no| && no[j] == b;
      }
    }
  }

  predicate NoReadDay(b: Book) {
    !HasReadDay(b)
  }

  /** `has-read-days` and `no-read-days` show the `all` list filtered by the read-day test. */
  lemma ReadDayQueriesFilterAll(books: seq<Book>, keyword: string, key: SortKey)
    ensures var all := Query(books, AllBooks, keyword, key);
      Query(books, HasReadDays, keyword, key) == Filter(HasReadDay, all) &&
      Query(books, NoReadDays, keyword, key) == Filter(NoReadDay, all)
  {
    var kw := LowerStr(keyword);
    StoreQueryKeepsAll(books, AllBooks);
    FilterAgree((b: Book) => Keep(b, AllBooks, kw), (b: Book) => KeywordMatch(b, kw), SortBooks(books, key));
    HasReadDaysFiltersWords(books, kw, key);
    NoReadDaysFiltersWords(books, kw, key);
  }

  lemma HasReadDaysFiltersWords(books: seq<Book>, kw: string, key: SortKey)
    ensures Filter((b: Book) => Keep(b, HasReadDays, kw), SortBooks(StoreQuery(books, HasReadDays), key)) ==
      Filter(HasReadDay, Filter((b: Book) => KeywordMatch(b, kw), SortBooks(books, key)))
  {
    StoreQueryKeepsAll(books, HasReadDays);
    FilterConjunction((b: Book) => Keep(b, HasReadDays, kw), HasReadDay, (b: Book) => KeywordMatch(b, kw),
      SortBooks(books, key));
  }

  lemma NoReadDaysFiltersWords(books: seq<Book>, kw: string, key: SortKey)
    ensures Filter((b: Book) => Keep(b, NoReadDays, kw), SortBooks(StoreQuery(books, NoReadDays), key)) ==
      Filter(NoReadDay, Filter((b: Book) => KeywordMatch(b, kw), SortBooks(books, key)))
  {
    StoreQueryKeepsAll(books, NoReadDays);
    FilterConjunction((b: Book) => Keep(b, NoReadDays, kw), NoReadDay, (b: Book) => KeywordMatch(b, kw),
      SortBooks(books, key));
  }

  /** A filter value the code does not know shows the same list as `all`. */
  lemma UnknownFilterShowsAll(books: seq<Book>, keyword: string, key: SortKey)
    ensures Query(books, UnknownFilter, keyword, key) == Query(books, AllBooks, keyword, key)
  {
    var kw := LowerStr(keyword);
    StoreQueryKeepsAll(books, AllBooks);
    StoreQueryKeepsAll(books, UnknownFilter);
    forall b: Book ensures Keep(b, UnknownFilter, kw) == Keep(b, AllBooks, kw) { }
    FilterAgree((b: Book) => Keep(b, UnknownFilter, kw), (b: Book) => Keep(b, AllBooks, kw),
      SortBooks(books, key));
  }

  /**
   * With an empty search box a book is shown only if at least one of its title,
   * author, isbn or notes is non-empty.
   */
  lemma EmptyKeywordNeedsSomeText(b: Book)
    ensures KeywordMatch(b, LowerStr("")) <==>
      TextOr(b.data.title) != "" || TextOr(b.data.author) != "" ||
      TextOr(b.data.isbn) != "" || TextOr(b.data.notes) != ""
  {
    assert LowerStr("") == "";
    forall t: string ensures Contains(LowerStr(t), "") { ContainsEmpty(LowerStr(t)); }
  }

  /**
   * The search is case-insensitive: keywords that agree up to ASCII case show
   * the same list; in particular a keyword and its lower-cased form do.
   */
  lemma KeywordCaseInsensitive(books: seq<Book>, f: TypeFilter, k1: string, k2: string, key: SortKey)
    ensures LowerStr(k1) == LowerStr(k2) ==> Query(books, f, k1, key) == Query(books, f, k2, key)
    ensures Query(books, f, LowerStr(k1), key) == Query(books, f, k1, key)
  {
    LowerStrIdempotent(k1);
  }

  /** The visible list does not depend on the order in which the store returned the books. */
  lemma QueryIgnoresStoreOrder(p: seq<Book>, q: seq<Book>, f: TypeFilter, keyword: string, key: SortKey)
    requires DistinctIds(p) && DistinctIds(q) && multiset(p) == multiset(q)
    ensures Query(p, f, keyword, key) == Query(q, f, keyword, key)
  {
    var sel := (b: Book) => StoreSelects(b, f);
    FilterKeepsDistinctIds(sel, p);
    FilterKeepsDistinctIds(sel, q);
    forall x ensures multiset(StoreQuery(p, f))[x] == multiset(StoreQuery(q, f))[x] {
      FilterMultiset(sel, p, x);
      FilterMultiset(sel, q, x);
    }
    assert multiset(StoreQuery(p, f)) == multiset(StoreQuery(q, f));
    SortIgnoresInputOrder(StoreQuery(p, f), StoreQuery(q, f), key);
  }

  /**
   * Two books rated 4, listed by the store in key order: sorting by rating puts
   * the newer one (id 2) first.
   */
  lemma RatingTieScenario()
    ensures var b2 := Book(2, BookData(Some("B"), None, Some("offline"), None, None, Some(4.0), None,
                                       None, None, Some([DateEntry("2024-01-01")])));
            var b1 := Book(1, BookData(Some("A"), None, Some("offline"), None, None, Some(4.0), None,
                                       None, None, Some([])));
            Query([b1, b2], AllBooks, "", ByRating) == [b2, b1]
  {
    var b2 := Book(2, BookData(Some("B"), None, Some("offline"), None, None, Some(4.0), None,
                               None, None, Some([DateEntry("2024-01-01")])));
    var b1 := Book(1, BookData(Some("A"), None, Some("offline"), None, None, Some(4.0), None,
                               None, None, Some([])));
    StoreQueryKeepsAll([b1, b2], AllBooks);
    assert Precedes(b2, b1, ByRating);
    SortPairSwaps(b1, b2, ByRating);
    assert LowerStr("") == "";
    ContainsEmpty(LowerStr("A"));
    ContainsEmpty(LowerStr("B"));
    assert Keep(b2, AllBooks, "") && Keep(b1, AllBooks, "");
    FilterKeepsAll((b: Book) => Keep(b, AllBooks, LowerStr("")), [b2, b1]);
  }

  /** Two books the comparator puts the other way round come out swapped. */
  lemma SortPairSwaps(x: Book, y: Book, key: SortKey)
    requires Precedes(y, x, key)
    ensures SortBooks([x, y], key) == [y, x]
  {
    var lt := BookOrder(key);
    assert [x, y][1..] == [y] && [y][1..] == [];
    calc {
      Sorting.Sort(lt, [y]);
      Sorting.Insert(lt, y, Sorting.Sort(lt, []));
      [y];
    }
    calc {
      Sorting.Sort(lt, [x, y]);
      Sorting.Insert(lt, x, Sorting.Sort(lt, [y]));
      Sorting.Insert(lt, x, [y]);
      { assert lt(y, x); }
      [y] + Sorting.Insert(lt, x, []);
      [y, x];
    }
  }
}
