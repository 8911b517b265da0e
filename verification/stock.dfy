/**
 * `tickers/stock.py`: the query window sent to the stock price API and the
 * handling of the history it returns. Times are UTC seconds; `now` is the
 * current time, passed in.
 */
module Stock {
  import opened Common
  import opened Calendar
  import opened Frames
  import TickerBase

  /** The US market trades 6.5 hours a day. */
  const TradingDaySeconds: int := 23400

  /** The start before the weekend adjustments: the lookback, widened for closed hours on intraday intervals. */
  function MarketStart(now: int, intervalSeconds: int, lookback: int): (start: int)
    ensures intervalSeconds >= 0 && lookback >= 0 ==> start <= now - intervalSeconds * lookback
    ensures intervalSeconds >= SecondsPerDay ==> start == now - intervalSeconds * lookback
    ensures 0 <= intervalSeconds < SecondsPerDay && lookback >= 0 ==>
              start <= now - intervalSeconds * lookback - SecondsPerDay
    ensures 0 <= intervalSeconds < SecondsPerDay && lookback >= 0 ==>
              var d := now - intervalSeconds * lookback - start;
              d % SecondsPerDay == 0 &&
              (d / SecondsPerDay - 1) * TradingDaySeconds <= intervalSeconds * lookback < (d / SecondsPerDay) * TradingDaySeconds
  {
    TradingDays(intervalSeconds * lookback);
    var start := now - intervalSeconds * lookback;
    if intervalSeconds < SecondsPerDay then
      start - SecondsPerDay * (intervalSeconds * lookback / TradingDaySeconds + 1)
    else start
  }

  /**
   * Widening by `floor(span / 6.5 h) + 1` whole days covers the span in
   * trading days: one day fewer would not.
   */
  lemma TradingDays(span: int)
    ensures var days := span / TradingDaySeconds + 1;
            (SecondsPerDay * days) % SecondsPerDay == 0 && (SecondsPerDay * days) / SecondsPerDay == days &&
            (days - 1) * TradingDaySeconds <= span < days * TradingDaySeconds
  {
  }

  /**
   * `start -= 1d * max(0, start.weekday() - 4)`: a Saturday moves back one
   * day and a Sunday two, to the Friday before; weekdays stay.
   */
  function BeforeWeekend(start: int): (r: int)
    ensures Weekday(r) <= 4
    ensures Weekday(start) <= 4 ==> r == start
    ensures Weekday(start) > 4 ==> r == start - (Weekday(start) - 4) * SecondsPerDay && Weekday(r) == 4
    ensures start - 2 * SecondsPerDay <= r <= start
  {
    var back := if Weekday(start) - 4 > 0 then Weekday(start) - 4 else 0;
    WeekdayBack(start, back);
    start - back * SecondsPerDay
  }

  /**
   * `_get_yfinance_start_end` as written: three days are subtracted per
   * unit of `end.week - start.week`, the difference of ISO week numbers,
   * which restarts at 1 every year and so can be negative.
   */
  function WindowAsWritten(now: int, intervalSeconds: int, lookback: int): (w: (int, int))
    ensures w.1 == now
    ensures Weekday(w.0) <= 4
    ensures var start := MarketStart(now, intervalSeconds, lookback);
            var moved := start - 3 * SecondsPerDay * (IsoWeek(now) - IsoWeek(start));
            moved - 2 * SecondsPerDay <= w.0 <= moved
  {
    var start := MarketStart(now, intervalSeconds, lookback);
    ShiftBack(start, IsoWeek(now) - IsoWeek(start), now)
  }

  /** The window from `start` moved back three days per week of difference, then off the weekend, to `now`. */
  function ShiftBack(start: int, weeks: int, now: int): (w: (int, int))
    ensures w.1 == now
    ensures Weekday(w.0) <= 4
    ensures weeks >= 0 ==> w.0 <= start
    ensures var moved := start - 3 * SecondsPerDay * weeks;
            moved - 2 * SecondsPerDay <= w.0 <= moved
  {
    (BeforeWeekend(start - 3 * SecondsPerDay * weeks), now)
  }

  /**
   * The window with the week difference counted on a week index that runs
   * on across years, so that it is never negative.
   */
  function Window(now: int, intervalSeconds: int, lookback: int): (w: (int, int))
    ensures w.1 == now
    ensures Weekday(w.0) <= 4
    ensures intervalSeconds >= 0 && lookback >= 0 ==> w.0 <= now - intervalSeconds * lookback
    ensures var start := MarketStart(now, intervalSeconds, lookback);
            var moved := start - 3 * SecondsPerDay * (WeekIndex(now) - WeekIndex(start));
            moved - 2 * SecondsPerDay <= w.0 <= moved
  {
    var start := MarketStart(now, intervalSeconds, lookback);
    var weeks := WeekIndex(now) - WeekIndex(start);
    assert intervalSeconds >= 0 && lookback >= 0 ==> weeks >= 0 by {
      if intervalSeconds >= 0 && lookback >= 0 {
        WeekIndexMonotone(start, now);
      }
    }
    ShiftBack(start, weeks, now)
  }

  /** Where the ISO week numbers differ by as much as the week indices, both windows coincide. */
  lemma WindowsAgreeWithinYear(now: int, intervalSeconds: int, lookback: int)
    requires var start := MarketStart(now, intervalSeconds, lookback);
             IsoWeek(now) - IsoWeek(start) == WeekIndex(now) - WeekIndex(start)
    ensures WindowAsWritten(now, intervalSeconds, lookback) == Window(now, intervalSeconds, lookback)
  {
    var start := MarketStart(now, intervalSeconds, lookback);
    WindowIsShift(now, intervalSeconds, lookback);
    WindowAsWrittenIsShift(now, intervalSeconds, lookback);
  }

  /** The corrected window is the shift by the week-index difference. */
  lemma WindowIsShift(now: int, intervalSeconds: int, lookback: int)
    ensures var start := MarketStart(now, intervalSeconds, lookback);
            Window(now, intervalSeconds, lookback) == ShiftBack(start, WeekIndex(now) - WeekIndex(start), now)
  {
  }

  /** The window as written is the shift by the ISO-week difference. */
  lemma WindowAsWrittenIsShift(now: int, intervalSeconds: int, lookback: int)
    ensures var start := MarketStart(now, intervalSeconds, lookback);
            WindowAsWritten(now, intervalSeconds, lookback) == ShiftBack(start, IsoWeek(now) - IsoWeek(start), now)
  {
  }

  /**
   * 2024-01-01 00:00 UTC with a daily interval and a lookback of 30: the
   * start, 2023-12-02, lies in ISO week 48 and the end in week 1, so the
   * window start is moved 141 days forward, past the end.
   */
  lemma NewYearWindowIsInverted(now: int, intervalSeconds: int, lookback: int)
    requires now == 1704067200 && intervalSeconds == SecondsPerDay && lookback == 30
    ensures WindowAsWritten(now, intervalSeconds, lookback).0 == 1713484800
    ensures WindowAsWritten(now, intervalSeconds, lookback).0 > now
  {
    var start := MarketStart(now, intervalSeconds, lookback);
    assert start == 1701475200;
    SaturdayDecember2nd2023();
    MondayJanuary1st2024();
    var moved := start - 3 * SecondsPerDay * (IsoWeek(now) - IsoWeek(start));
    assert moved == 1713657600;
    SundayAndFriday();
  }

  /** On the same input the corrected window starts on Friday 2023-11-17, before the end. */
  lemma NewYearWindowIsCorrected(now: int, intervalSeconds: int, lookback: int)
    requires now == 1704067200 && intervalSeconds == SecondsPerDay && lookback == 30
    ensures Window(now, intervalSeconds, lookback).0 == 1700179200
  {
    var start := MarketStart(now, intervalSeconds, lookback);
    assert start == 1701475200;
    assert WeekIndex(now) - WeekIndex(start) == 5;
    assert start - 3 * SecondsPerDay * 5 == 1700179200;
    SundayAndFriday();
  }

  /**
   * `_single_tick`, given the history the API returned for the window: an
   * empty history raises `ValueError`; otherwise it is trimmed to the
   * lookback and the price is its last close, which raises `IndexError`
   * if a negative lookback trimmed every row away.
   */
  function SingleTick(historical: seq<Row>, lookback: int): (r: Result<(seq<Row>, real)>)
    ensures |historical| == 0 ==> r == Err(ValueError)
    ensures r.Ok? ==> r.value.0 == Trim(historical, lookback) && |r.value.0| > 0
    ensures r.Ok? ==> r.value.1 == r.value.0[|r.value.0| - 1].close
    ensures |historical| > 0 && lookback >= 0 ==> r.Ok? && r.value.1 == historical[|historical| - 1].close
    ensures r.Err? && |historical| > 0 ==> r.error == IndexError && lookback < 0
  {
    if |historical| == 0 then Err(ValueError)
    else
      var trimmed := Trim(historical, lookback);
      var price :- LastClose(trimmed);
      Ok((trimmed, price))
  }

  /** The stock ticker always supplies a price, so `single_tick` never falls back. */
  lemma StockPriceIsLastClose(historical: seq<Row>, lookback: int)
    requires |historical| > 0 && lookback > 0
    ensures var r := SingleTick(historical, lookback);
            r.Ok? && TickerBase.CurrentPriceFallback(r.value.0, Some(r.value.1)).Ok? &&
            TickerBase.CurrentPriceFallback(r.value.0, Some(r.value.1)).value.currentPrice ==
              historical[|historical| - 1].close
  {
  }
}
