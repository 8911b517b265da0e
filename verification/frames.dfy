/**
 * Price history as the tickers handle it: a pandas DataFrame is a sequence
 * of candle rows, oldest first, each stamped with its time in UTC seconds.
 */
module Frames {
  import opened Common

  datatype Row = Row(time: int, open: real, high: real, low: real, close: real, volume: real)

  /**
   * `if len(rows) > lookback: rows = rows.iloc[-lookback:]`. A positive
   * lookback keeps the latest `lookback` rows; as Python slicing goes,
   * `iloc[-0:]` keeps every row and a negative lookback drops that many
   * rows from the front.
   */
  function Trim(rows: seq<Row>, lookback: int): (r: seq<Row>)
    ensures lookback > 0 ==> |r| == (if |rows| <= lookback then |rows| else lookback)
    ensures lookback > 0 ==> r == rows[|rows| - |r|..]
    ensures lookback == 0 ==> r == rows
    ensures lookback < 0 ==> r == rows[(if -lookback <= |rows| then -lookback else |rows|)..]
  {
    if |rows| > lookback then
      if lookback > 0 then rows[|rows| - lookback..]
      else if -lookback <= |rows| then rows[-lookback..]
      else []
    else rows
  }

  /** Trimming twice to the same positive lookback is trimming once. */
  lemma TrimIdempotent(rows: seq<Row>, lookback: int)
    requires lookback > 0
    ensures Trim(Trim(rows, lookback), lookback) == Trim(rows, lookback)
  {
  }

  /** A positive lookback never drops the latest row. */
  lemma TrimKeepsLatest(rows: seq<Row>, lookback: int)
    requires lookback > 0 && |rows| > 0
    ensures |Trim(rows, lookback)| > 0
    ensures Trim(rows, lookback)[|Trim(rows, lookback)| - 1] == rows[|rows| - 1]
  {
  }

  /** `rows.iloc[-1]["Close"]`: an empty frame raises `IndexError`. */
  function LastClose(rows: seq<Row>): (r: Result<real>)
    ensures r.Err? <==> |rows| == 0
    ensures r.Err? ==> r.error == IndexError
    ensures r.Ok? ==> r.value == rows[|rows| - 1].close
  {
    if |rows| == 0 then Err(IndexError) else Ok(rows[|rows| - 1].close)
  }
}
