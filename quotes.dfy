/** The quote of the day: the quotes table ordered by id, indexed by the number of days since the epoch. */
module Quotes {
  import opened Support
  import opened Sorting

  datatype Quote = Quote(id: int, text: string, author: string)

  const MsPerDay: int := 1000 * 60 * 60 * 24

  predicate IdLe(a: Quote, b: Quote)
  {
    a.id <= b.id
  }

  function QuoteId(q: Quote): int
  {
    q.id
  }

  lemma IdLeTotalPreorder()
    ensures TotalPreorder(IdLe)
  {
  }

  /** `Math.floor(ms / 86400000)`: the day since the epoch that contains the instant. */
  function DayNumber(ms: int): (r: int)
    ensures r * MsPerDay <= ms < (r + 1) * MsPerDay
  {
    ms / MsPerDay
  }

  /** Division by a positive divisor: q * n + r with 0 <= r < n has quotient q and remainder r. */
  lemma {:induction false} DivModOfSum(q: int, n: int, r: int)
    requires n > 0 && 0 <= r < n
    ensures (q * n + r) / n == q && (q * n + r) % n == r
  {
    var a := q * n + r;
    var k := q - a / n;
    assert k * n == a % n - r by {
      assert a == (a / n) * n + a % n;
      assert k * n == q * n - (a / n) * n;
    }
    if k >= 1 {
      assert k * n >= n by { MulAtLeast(k, n); }
    } else if k <= -1 {
      assert (-k) * n >= n by { MulAtLeast(-k, n); }
    }
  }

  lemma MulAtLeast(k: int, n: int)
    requires k >= 1 && n > 0
    ensures k * n >= n
  {
    assert k * n == (k - 1) * n + n;
    assert (k - 1) * n >= 0;
  }

  /** A negative dividend -b differs from -(b % n) by a multiple of n, and is a multiple of n exactly when b is. */
  lemma NegatedRemainder(a: int, n: int)
    requires n > 0 && a < 0
    ensures (-((-a) % n) - a) % n == 0
    ensures (-a) % n == 0 <==> a % n == 0
  {
    var q, m := (-a) / n, (-a) % n;
    assert -a == q * n + m;
    assert -m - a == q * n + 0;
    DivModOfSum(q, n, 0);
    if m == 0 {
      assert a == (-q) * n + 0;
      DivModOfSum(-q, n, 0);
    } else {
      assert a == (-q - 1) * n + (n - m);
      DivModOfSum(-q - 1, n, n - m);
    }
  }

  /** JavaScript's `%`: the remainder takes the sign of the dividend. */
  function JsRem(a: int, n: int): (r: int)
    requires n > 0
    ensures a >= 0 ==> 0 <= r < n && r == a % n
    ensures a < 0 ==> -n < r <= 0 && (r - a) % n == 0
    ensures a < 0 ==> (r == 0 <==> a % n == 0)
  {
    if a >= 0 then a % n
    else
      NegatedRemainder(a, n);
      -((-a) % n)
  }

  /** `data[dayNumber % data.length]`, None for an empty list or a negative index. */
  function SelectQuote(quotes: seq<Quote>, dayNumber: int): (r: Option<Quote>)
    ensures r.Some? ==> r.value in quotes
    ensures quotes == [] ==> r.None?
    ensures quotes != [] && dayNumber >= 0 ==> r == Some(quotes[dayNumber % |quotes|])
    ensures quotes != [] && dayNumber < 0 ==>
      r == (if dayNumber % |quotes| == 0 then Some(quotes[0]) else None)
  {
    if quotes == [] then None
    else
      var i := JsRem(dayNumber, |quotes|);
      if i >= 0 then Some(quotes[i]) else None
  }

  /** getTodaysQuote, with the table's rows and the clock reading in milliseconds. */
  function GetTodaysQuote(table: seq<Quote>, nowMs: int): Option<Quote>
  {
    SelectQuote(SortBy(table, IdLe), DayNumber(nowMs))
  }

  /** The quote is a row of the table; there is one whenever the table has rows and the clock is past the epoch. */
  lemma TodaysQuoteFromTable(table: seq<Quote>, nowMs: int)
    ensures GetTodaysQuote(table, nowMs).Some? ==> GetTodaysQuote(table, nowMs).value in table
    ensures table == [] ==> GetTodaysQuote(table, nowMs).None?
    ensures table != [] && nowMs >= 0 ==> GetTodaysQuote(table, nowMs).Some?
  {
    IdLeTotalPreorder();
    SortBySortsAndPermutes(table, IdLe);
    var sorted := SortBy(table, IdLe);
    if GetTodaysQuote(table, nowMs).Some? {
      assert GetTodaysQuote(table, nowMs).value in multiset(sorted);
    }
    if table != [] {
      assert table[0] in multiset(sorted);
    }
  }

  /** Two instants of the same day show the same quote. */
  lemma SameDaySameQuote(table: seq<Quote>, ms1: int, ms2: int)
    requires ms1 / MsPerDay * MsPerDay <= ms2 < (ms1 / MsPerDay + 1) * MsPerDay
    ensures GetTodaysQuote(table, ms1) == GetTodaysQuote(table, ms2)
  {
    DivModOfSum(ms1 / MsPerDay, MsPerDay, ms2 - ms1 / MsPerDay * MsPerDay);
  }

  /** After as many days as there are quotes, the rotation starts again. */
  lemma RotationRepeats(quotes: seq<Quote>, dayNumber: int)
    requires dayNumber >= 0
    ensures SelectQuote(quotes, dayNumber + |quotes|) == SelectQuote(quotes, dayNumber)
  {
    if quotes != [] {
      var n := |quotes|;
      assert dayNumber + n == (dayNumber / n + 1) * n + dayNumber % n;
      DivModOfSum(dayNumber / n + 1, n, dayNumber % n);
    }
  }

  /** Each day shows the quote after the previous day's, wrapping from the last to the first. */
  lemma NextDayNextQuote(quotes: seq<Quote>, dayNumber: int)
    requires dayNumber >= 0 && quotes != []
    ensures SelectQuote(quotes, dayNumber + 1) == Some(quotes[(dayNumber % |quotes| + 1) % |quotes|])
  {
    var n := |quotes|;
    var q, r := dayNumber / n, dayNumber % n;
    if r + 1 < n {
      assert dayNumber + 1 == q * n + (r + 1);
      DivModOfSum(q, n, r + 1);
      DivModOfSum(0, n, r + 1);
    } else {
      assert dayNumber + 1 == (q + 1) * n + 0;
      DivModOfSum(q + 1, n, 0);
      DivModOfSum(1, n, 0);
    }
  }

  /** The quote shown `offset` days after day `start`. */
  function QuoteOnDay(quotes: seq<Quote>, start: int, offset: int): Option<Quote>
  {
    SelectQuote(quotes, start + offset)
  }

  /** Every quote appears within any run of |quotes| consecutive days. */
  lemma EveryQuoteWithinCycle(quotes: seq<Quote>, dayNumber: int, k: int)
    requires dayNumber >= 0 && 0 <= k < |quotes|
    ensures exists j :: 0 <= j < |quotes| && QuoteOnDay(quotes, dayNumber, j) == Some(quotes[k])
  {
    var n := |quotes|;
    var q := dayNumber / n;
    var r := dayNumber % n;
    var j := if k >= r then k - r else k - r + n;
    if k >= r {
      assert dayNumber + j == q * n + k;
      DivModOfSum(q, n, k);
    } else {
      assert dayNumber + j == (q + 1) * n + k;
      DivModOfSum(q + 1, n, k);
    }
    assert QuoteOnDay(quotes, dayNumber, j) == Some(quotes[k]);
  }

  /** Strictly increasing ids. */
  predicate StrictIds(s: seq<Quote>)
  {
    forall i, j :: 0 <= i < j < |s| ==> s[i].id < s[j].id
  }

  /** Two orderings by strictly increasing id of the same rows start with the same row. */
  lemma SameHead(a: seq<Quote>, b: seq<Quote>)
    requires StrictIds(a) && StrictIds(b) && multiset(a) == multiset(b) && a != []
    ensures b != [] && a[0] == b[0]
  {
    assert a[0] in multiset(b);
    var j :| 0 <= j < |b| && b[j] == a[0];
    assert b[0] in multiset(a);
    var i :| 0 <= i < |a| && a[i] == b[0];
    assert a[0].id <= b[0].id by {
      if i > 0 {
        assert a[0].id < a[i].id;
      }
    }
    assert j == 0;
  }

  lemma TailMultiset(s: seq<Quote>)
    requires s != []
    ensures multiset(s[1..]) == multiset(s) - multiset{s[0]}
  {
    assert s == [s[0]] + s[1..];
  }

  /** Two orderings by strictly increasing id of the same rows are the same sequence. */
  lemma {:induction false} StrictIdsUnique(a: seq<Quote>, b: seq<Quote>)
    requires StrictIds(a) && StrictIds(b) && multiset(a) == multiset(b)
    ensures a == b
    decreases |a|
  {
    if a == [] {
      assert |b| == |multiset(b)| == 0;
    } else {
      SameHead(a, b);
      TailMultiset(a);
      TailMultiset(b);
      StrictIdsUnique(a[1..], b[1..]);
      assert a == [a[0]] + a[1..];
      assert b == [b[0]] + b[1..];
    }
  }

  lemma SortedDistinctIsStrict(s: seq<Quote>)
    requires SortedBy(s, IdLe) && DistinctBy(s, QuoteId)
    ensures StrictIds(s)
  {
    forall i, j | 0 <= i < j < |s|
      ensures s[i].id < s[j].id
    {
      assert IdLe(s[i], s[j]);
      assert QuoteId(s[i]) != QuoteId(s[j]);
    }
  }

  /** With ids unique, the quote of the day does not depend on the order rows are stored in. */
  lemma TodaysQuoteIgnoresStorageOrder(t1: seq<Quote>, t2: seq<Quote>, nowMs: int)
    requires multiset(t1) == multiset(t2) && DistinctBy(t1, QuoteId)
    ensures GetTodaysQuote(t1, nowMs) == GetTodaysQuote(t2, nowMs)
  {
    IdLeTotalPreorder();
    SortBySortsAndPermutes(t1, IdLe);
    SortBySortsAndPermutes(t2, IdLe);
    var s1 := SortBy(t1, IdLe);
    var s2 := SortBy(t2, IdLe);
    PermutationKeepsDistinct(t1, s1, QuoteId);
    PermutationKeepsDistinct(t1, s2, QuoteId);
    SortedDistinctIsStrict(s1);
    SortedDistinctIsStrict(s2);
    StrictIdsUnique(s1, s2);
  }
}
