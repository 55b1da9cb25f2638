/**
 * The daily quote: a date key built from the calendar date picks an entry of
 * the quote list, so one date always shows the same quote.
 */
module Quotes {
  import opened Outcomes
  import opened Calendar

  datatype Quote = Quote(text: string, author: string)

  /** The body of the reply: the quote and the calendar date it was chosen for. */
  datatype DailyQuote = DailyQuote(text: string, author: string, date: Civil)

  /** `year * 10000 + (month + 1) * 100 + day`, with the 0-based JavaScript month; `month`
      here is 1-based, so it is the `month + 1` of the source. */
  function DateKey(c: Civil): int {
    c.year * 10000 + c.month * 100 + c.day
  }

  /** From year 0 on, the key is the date written as the decimal digits YYYYMMDD: the year,
      month and day can be read back from it. */
  lemma DateKeyDecodes(c: Civil)
    requires ValidCivil(c) && c.year >= 0
    ensures DateKey(c) >= 0
    ensures DateKey(c) / 10000 == c.year
    ensures (DateKey(c) / 100) % 100 == c.month
    ensures DateKey(c) % 100 == c.day
  {
    var k := DateKey(c);
    var low := c.month * 100 + c.day;
    assert 0 <= low < 10000;
    assert k == c.year * 10000 + low;
    assert k / 100 == c.year * 100 + c.month;
  }

  /** Distinct dates from year 0 on have distinct keys. */
  lemma DateKeyInjective(c1: Civil, c2: Civil)
    requires ValidCivil(c1) && ValidCivil(c2) && c1.year >= 0 && c2.year >= 0
    ensures DateKey(c1) == DateKey(c2) <==> c1 == c2
  {
    DateKeyDecodes(c1);
    DateKeyDecodes(c2);
  }

  /** A key is negative exactly for a date before year 0. */
  lemma NegativeKey(c: Civil)
    requires ValidCivil(c)
    ensures DateKey(c) < 0 <==> c.year < 0
  {
    if c.year >= 0 {
      DateKeyDecodes(c);
    }
  }

  /** GET /quotes/daily on the day `today`: the entry at `dateKey % quotes.length`. An empty
      list, or a negative remainder (a date before year 0), gives an index with no quote, and
      reading the missing quote fails with status 500. A remainder of -0 reads entry 0. */
  function DailyQuoteFor(quotes: seq<Quote>, today: int): (r: Reply<DailyQuote>)
    ensures r.Ok? <==> |quotes| > 0 && JsRem(DateKey(CivilFromDays(today)), |quotes|) >= 0
    ensures r.Err? ==> r.status == 500
    ensures r.Ok? ==> (r.status == 200 && r.value.date == CivilFromDays(today)
      && Quote(r.value.text, r.value.author) == quotes[JsRem(DateKey(CivilFromDays(today)), |quotes|)])
  {
    var c := CivilFromDays(today);
    if |quotes| == 0 then Err(500, MissingQuoteMessage)
    else
      var index := JsRem(DateKey(c), |quotes|);
      if index < 0 then Err(500, MissingQuoteMessage)
      else Ok(200, DailyQuote(quotes[index].text, quotes[index].author, c))
  }

  /** From year 0 on, the daily quote is the entry at the date key modulo the list length,
      which lies in range for a non-empty list. */
  lemma DailyQuoteIndex(quotes: seq<Quote>, today: int)
    requires |quotes| > 0 && CivilFromDays(today).year >= 0
    ensures var i := DateKey(CivilFromDays(today)) % |quotes|;
      && 0 <= i < |quotes|
      && DailyQuoteFor(quotes, today) == Ok(200, DailyQuote(quotes[i].text, quotes[i].author, CivilFromDays(today)))
  {
    NegativeKey(CivilFromDays(today));
  }

  const MissingQuoteMessage := "Cannot read properties of undefined (reading 'text')"

  /** The remainder of the next number is the next remainder, wrapping at n. */
  lemma ModNext(k: int, n: int)
    requires n >= 2
    ensures (k + 1) % n == (k % n + 1) % n
    ensures (k + 1) % n != k % n
  {
    var q := k / n;
    var r := k % n;
    if r + 1 < n {
      ModUnique(k + 1, n, q, r + 1);
      ModUnique(r + 1, n, 0, r + 1);
    } else {
      ModUnique(k + 1, n, q + 1, 0);
      ModUnique(r + 1, n, 1, 0);
    }
  }

  /** Two instants on the same calendar date receive the same quote, and two different dates
      have different keys. */
  lemma SameDateSameQuote(quotes: seq<Quote>, d1: int, d2: int)
    requires CivilFromDays(d1).year >= 0 && CivilFromDays(d2).year >= 0
    ensures d1 == d2 <==> DateKey(CivilFromDays(d1)) == DateKey(CivilFromDays(d2))
    ensures d1 == d2 ==> DailyQuoteFor(quotes, d1) == DailyQuoteFor(quotes, d2)
  {
    DateKeyInjective(CivilFromDays(d1), CivilFromDays(d2));
    if CivilFromDays(d1) == CivilFromDays(d2) {
      CivilInjective(d1, d2);
    }
  }

  /** Within a month the next day's key is one more, so the quote advances by one position
      and, with at least two quotes, changes. */
  lemma NextDayInMonth(quotes: seq<Quote>, y: int, m: int, d: int)
    requires |quotes| >= 2 && y >= 0
    requires ValidCivil(Civil(y, m, d)) && ValidCivil(Civil(y, m, d + 1))
    ensures DateKey(Civil(y, m, d + 1)) % |quotes| == (DateKey(Civil(y, m, d)) % |quotes| + 1) % |quotes|
    ensures DateKey(Civil(y, m, d + 1)) % |quotes| != DateKey(Civil(y, m, d)) % |quotes|
  {
    assert DateKey(Civil(y, m, d + 1)) == DateKey(Civil(y, m, d)) + 1;
    ModNext(DateKey(Civil(y, m, d)), |quotes|);
  }

  /** Across a month boundary the key jumps: with seven quotes, 31 January and 1 February
      2026 show the same quote. */
  lemma MonthBoundaryCanRepeat()
    ensures DateKey(Civil(2026, 1, 31)) % 7 == DateKey(Civil(2026, 2, 1)) % 7
  {
  }
}
