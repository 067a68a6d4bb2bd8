/**
 * The statistics panel of the library tracker (`renderStats`, script.js):
 * counts, the online/offline split, the rating average, the total of read
 * days and the per-date histogram, all over the visible list.
 */
module LibraryStats {
  import opened Wrappers
  import opened Seqs
  import opened Books
  import opened LibraryQuery

  /** One entry of `dateCounts`: a date string and how many times it was read. */
  datatype DateCount = DateCount(date: string, count: nat)

  /** The numbers the panel shows; `dateCounts` keeps the dates in first-seen order. */
  datatype Stats = Stats(
    total: nat,
    online: nat,
    offline: nat,
    ratingSum: real,
    ratedCount: nat,
    totalDays: nat,
    dateCounts: seq<DateCount>)

  predicate IsOnline(b: Book) {
    b.data.bookType == Some("online")
  }

  function Last<T>(s: seq<T>): T
    requires s != []
  {
    s[|s| - 1]
  }

  function Init<T>(s: seq<T>): seq<T>
    requires s != []
  {
    s[..|s| - 1]
  }

  /** Sum of the read-day counts, non-arrays counting 0. */
  function TotalReadDays(s: seq<Book>): nat {
    if s == [] then 0 else TotalReadDays(Init(s)) + ReadDaysCount(Last(s))
  }

  function RatedCount(s: seq<Book>): nat {
    if s == [] then 0 else RatedCount(Init(s)) + (if IsRated(Last(s)) then 1 else 0)
  }

  function RatingSum(s: seq<Book>): real {
    if s == [] then 0.0
    else RatingSum(Init(s)) + (if IsRated(Last(s)) then Last(s).data.rating.value else 0.0)
  }

  /** `dateCounts[date] = (dateCounts[date] || 0) + 1`. */
  function CountDate(h: seq<DateCount>, date: string): (r: seq<DateCount>)
    decreases |h|
  {
    if h == [] then [DateCount(date, 1)]
    else if h[0].date == date then [h[0].(count := h[0].count + 1)] + h[1..]
    else [h[0]] + CountDate(h[1..], date)
  }

  /** The entries of one `readDays` array counted in; entries that are not strings are skipped. */
  function CountEntries(h: seq<DateCount>, days: seq<ReadEntry>): seq<DateCount> {
    if days == [] then h
    else
      var h' := CountEntries(h, Init(days));
      if Last(days).DateEntry? then CountDate(h', Last(days).date) else h'
  }

  function DaysOf(b: Book): seq<ReadEntry> {
    b.data.readDays.GetOr([])
  }

  /** `dateCounts` after visiting every book of `s`. */
  function Histogram(s: seq<Book>): seq<DateCount> {
    if s == [] then [] else CountEntries(Histogram(Init(s)), DaysOf(Last(s)))
  }

  /** The panel's computation, loop for loop. */
  method ComputeStats(books: seq<Book>) returns (st: Stats)
    ensures st.total == |books|
    ensures st.online == |Filter(IsOnline, books)|
    ensures st.offline == |books| - |Filter(IsOnline, books)|
    ensures st.totalDays == TotalReadDays(books)
    ensures st.ratedCount == RatedCount(books) && st.ratingSum == RatingSum(books)
    ensures st.dateCounts == Histogram(books)
  {
    var totalDays: nat := 0;
    var totalRating := 0.0;
    var ratedCount: nat := 0;
    var online := |Filter(IsOnline, books)|;
    var i := 0;
    while i < |books|
      invariant 0 <= i <= |books|
      invariant totalDays == TotalReadDays(books[..i])
      invariant ratedCount == RatedCount(books[..i]) && totalRating == RatingSum(books[..i])
    {
      assert Init(books[..i + 1]) == books[..i];
      var b := books[i];
      totalDays := totalDays + ReadDaysCount(b);
      if b.data.rating.Some? && b.data.rating.value > 0.0 {
        totalRating := totalRating + b.data.rating.value;
        ratedCount := ratedCount + 1;
      }
      i := i + 1;
    }
    assert books[..i] == books;
    var dateCounts: seq<DateCount> := [];
    i := 0;
    while i < |books|
      invariant 0 <= i <= |books|
      invariant dateCounts == Histogram(books[..i])
    {
      assert Init(books[..i + 1]) == books[..i];
      if books[i].data.readDays.Some? {
        var days := books[i].data.readDays.value;
        var j := 0;
        while j < |days|
          invariant 0 <= j <= |days|
          invariant dateCounts == CountEntries(Histogram(books[..i]), days[..j])
        {
          assert Init(days[..j + 1]) == days[..j];
          if days[j].DateEntry? {
            dateCounts := CountDate(dateCounts, days[j].date);
          }
          j := j + 1;
        }
        assert days[..j] == days;
      }
      i := i + 1;
    }
    assert books[..i] == books;
    st := Stats(|books|, online, |books| - online, totalRating, ratedCount, totalDays, dateCounts);
  }

  /** Every book that is not `online` (another type, or none) counts as offline. */
  lemma OfflineIsEverythingElse(books: seq<Book>)
    ensures |books| - |Filter(IsOnline, books)| == |Filter((b: Book) => !IsOnline(b), books)|
  {
    FilterPartition(IsOnline, (b: Book) => !IsOnline(b), books);
  }

  /** The count the histogram holds for `date` (0 when absent). */
  function Lookup(h: seq<DateCount>, date: string): nat {
    if h == [] then 0 else if h[0].date == date then h[0].count else Lookup(h[1..], date)
  }

  function HistogramSum(h: seq<DateCount>): nat {
    if h == [] then 0 else h[0].count + HistogramSum(h[1..])
  }

  ghost predicate DistinctDates(h: seq<DateCount>) {
    forall i, j :: 0 <= i < j < |h| ==> h[i].date != h[j].date
  }

  /** How often `date` occurs as a string entry of `days`. */
  function Occurrences(days: seq<ReadEntry>, date: string): nat {
    if days == [] then 0
    else Occurrences(Init(days), date) + (if Last(days) == DateEntry(date) then 1 else 0)
  }

  /** How often `date` occurs in the read days of all the books. */
  function DateOccurrences(s: seq<Book>, date: string): nat {
    if s == [] then 0 else DateOccurrences(Init(s), date) + Occurrences(DaysOf(Last(s)), date)
  }

  /** The number of string entries in `days`. */
  function DateEntryCount(days: seq<ReadEntry>): nat {
    if days == [] then 0 else DateEntryCount(Init(days)) + (if Last(days).DateEntry? then 1 else 0)
  }

  function AllDateEntries(s: seq<Book>): nat {
    if s == [] then 0 else AllDateEntries(Init(s)) + DateEntryCount(DaysOf(Last(s)))
  }

  lemma {:induction false} CountDateEffect(h: seq<DateCount>, date: string)
    requires DistinctDates(h)
    ensures DistinctDates(CountDate(h, date))
    ensures HistogramSum(CountDate(h, date)) == HistogramSum(h) + 1
    ensures forall e :: Lookup(CountDate(h, date), e) == Lookup(h, e) + (if e == date then 1 else 0)
    ensures forall i :: 0 <= i < |CountDate(h, date)| ==>
      CountDate(h, date)[i].date == date || exists j :: 0 <= j < |h| && h[j].date == CountDate(h, date)[i].date
    decreases |h|
  {
    if h != [] && h[0].date != date {
      var t := h[1..];
      assert DistinctDates(t) by {
        forall i, j | 0 <= i < j < |t| ensures t[i].date != t[j].date {
          assert t[i] == h[i + 1] && t[j] == h[j + 1];
        }
      }
      CountDateEffect(t, date);
      var r := CountDate(h, date);
      var rt := CountDate(t, date);
      assert r == [h[0]] + rt;
      forall i | 0 <= i < |rt| ensures rt[i].date != h[0].date {
        if rt[i].date != date {
          var j :| 0 <= j < |t| && t[j].date == rt[i].date;
          assert h[j + 1] == t[j];
        }
      }
      forall i | 0 <= i < |r|
        ensures r[i].date == date || exists j :: 0 <= j < |h| && h[j].date == r[i].date
      {
        if i == 0 {
          assert h[0].date == r[0].date;
        } else {
          assert r[i] == rt[i - 1];
          if rt[i - 1].date != date {
            var j :| 0 <= j < |t| && t[j].date == rt[i - 1].date;
            assert h[j + 1] == t[j];
          }
        }
      }
      forall i, j | 0 <= i < j < |r| ensures r[i].date != r[j].date {
        if i > 0 { assert r[i] == rt[i - 1] && r[j] == rt[j - 1]; } else { assert r[j] == rt[j - 1]; }
      }
    } else if h != [] {
      var r := CountDate(h, date);
      forall i, j | 0 <= i < j < |r| ensures r[i].date != r[j].date {
        assert r[j] == h[j];
        if i > 0 { assert r[i] == h[i]; }
      }
      forall e ensures Lookup(r, e) == Lookup(h, e) + (if e == date then 1 else 0) {
        assert r[1..] == h[1..];
      }
      forall i | 0 <= i < |r|
        ensures r[i].date == date || exists j :: 0 <= j < |h| && h[j].date == r[i].date
      {
        assert r[i].date == h[i].date;
      }
      assert r[1..] == h[1..];
    }
  }

  lemma {:induction false} CountEntriesEffect(h: seq<DateCount>, days: seq<ReadEntry>)
    requires DistinctDates(h)
    ensures DistinctDates(CountEntries(h, days))
    ensures HistogramSum(CountEntries(h, days)) == HistogramSum(h) + DateEntryCount(days)
    ensures forall e :: Lookup(CountEntries(h, days), e) == Lookup(h, e) + Occurrences(days, e)
    decreases |days|
  {
    if days != [] {
      CountEntriesEffect(h, Init(days));
      if Last(days).DateEntry? {
        CountDateEffect(CountEntries(h, Init(days)), Last(days).date);
      }
    }
  }

  /**
   * The histogram has one entry per date, holds for each date the number of
   * times it occurs across the visible books' read days, and its counts add up
   * to the number of string entries.
   */
  lemma {:induction false} HistogramCorrect(s: seq<Book>)
    ensures DistinctDates(Histogram(s))
    ensures forall date :: Lookup(Histogram(s), date) == DateOccurrences(s, date)
    ensures HistogramSum(Histogram(s)) == AllDateEntries(s)
  {
    if s != [] {
      HistogramCorrect(Init(s));
      CountEntriesEffect(Histogram(Init(s)), DaysOf(Last(s)));
    }
  }

  /** No `readDays` array holds anything but date strings. */
  ghost predicate OnlyDateEntries(s: seq<Book>) {
    forall i, k :: 0 <= i < |s| && 0 <= k < |DaysOf(s[i])| ==> DaysOf(s[i])[k].DateEntry?
  }

  lemma {:induction false} DateEntryCountAll(days: seq<ReadEntry>)
    requires forall k :: 0 <= k < |days| ==> days[k].DateEntry?
    ensures DateEntryCount(days) == |days|
  {
    if days != [] {
      DateEntryCountAll(Init(days));
    }
  }

  /** When every read day is a date string, the histogram counts add up to the total of read days. */
  lemma {:induction false} HistogramSumIsTotalDays(s: seq<Book>)
    requires OnlyDateEntries(s)
    ensures HistogramSum(Histogram(s)) == TotalReadDays(s)
  {
    HistogramCorrect(s);
    AllDateEntriesIsTotal(s);
  }

  lemma {:induction false} AllDateEntriesIsTotal(s: seq<Book>)
    requires OnlyDateEntries(s)
    ensures AllDateEntries(s) == TotalReadDays(s)
  {
    if s != [] {
      assert OnlyDateEntries(Init(s)) by {
        forall i, k | 0 <= i < |Init(s)| && 0 <= k < |DaysOf(Init(s)[i])|
          ensures DaysOf(Init(s)[i])[k].DateEntry?
        {
          assert Init(s)[i] == s[i];
        }
      }
      AllDateEntriesIsTotal(Init(s));
      var b := Last(s);
      assert forall k :: 0 <= k < |DaysOf(b)| ==> DaysOf(b)[k].DateEntry? by {
        assert b == s[|s| - 1];
      }
      DateEntryCountAll(DaysOf(b));
    }
  }

  /** The average the panel shows, absent when no visible book is rated. */
  function AverageRating(st: Stats): Option<real> {
    if st.ratedCount > 0 then Some(st.ratingSum / st.ratedCount as real) else None
  }

  /**
   * The average uses only the rated books: dropping every unrated book changes
   * neither the count nor the sum.
   */
  lemma {:induction false} AverageUsesRatedOnly(s: seq<Book>)
    ensures RatedCount(s) == |Filter(IsRated, s)| == RatedCount(Filter(IsRated, s))
    ensures RatingSum(s) == RatingSum(Filter(IsRated, s))
  {
    if s != [] {
      AverageUsesRatedOnly(Init(s));
      assert s == Init(s) + [Last(s)];
      FilterSnoc(IsRated, Init(s), Last(s));
      var f := Filter(IsRated, Init(s));
      if IsRated(Last(s)) {
        var g := f + [Last(s)];
        assert Init(g) == f && Last(g) == Last(s);
        assert RatedCount(g) == RatedCount(f) + 1;
        assert RatingSum(g) == RatingSum(f) + Last(s).data.rating.value;
        assert Filter(IsRated, s) == g;
      } else {
        assert Filter(IsRated, s) == f;
      }
    }
  }

  /** With every rating at most 5, the average of the rated books lies in (0, 5]. */
  lemma {:induction false} AverageInRange(s: seq<Book>)
    requires forall i :: 0 <= i < |s| && s[i].data.rating.Some? ==> s[i].data.rating.value <= 5.0
    ensures 0.0 <= RatingSum(s) <= 5.0 * RatedCount(s) as real
    ensures RatedCount(s) > 0 ==> RatingSum(s) > 0.0
  {
    if s != [] {
      assert forall i :: 0 <= i < |Init(s)| ==> Init(s)[i] == s[i];
      AverageInRange(Init(s));
      assert Last(s) == s[|s| - 1];
    }
  }

  lemma AverageBounded(books: seq<Book>, st: Stats)
    requires forall i :: 0 <= i < |books| && books[i].data.rating.Some? ==> books[i].data.rating.value <= 5.0
    requires st.ratedCount == RatedCount(books) && st.ratingSum == RatingSum(books)
    ensures AverageRating(st).Some? <==> RatedCount(books) > 0
    ensures AverageRating(st).Some? ==> 0.0 < AverageRating(st).value <= 5.0
  {
    AverageInRange(books);
    if st.ratedCount > 0 {
      var n := st.ratedCount as real;
      assert st.ratingSum <= 5.0 * n;
      assert st.ratingSum / n <= 5.0 by {
        assert st.ratingSum / n * n == st.ratingSum;
      }
    }
  }
}
