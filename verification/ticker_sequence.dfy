/**
 * `sequence.py`: the rotation through the configured tickers. A pass runs
 * over the tickers in list order; a `go_to_index` request makes it pass
 * over the tickers before the requested one without fetching them. A
 * fetched ticker is shown unless it failed, came back empty or is
 * outdated. Sleeping, the asynchronous wait between tickers and the
 * fetches themselves are not modelled: what a fetch gives is an input.
 */
module TickerSequence {
  import opened Common
  import opened Frames

  /**
   * The attributes of a `Sequence` that the rotation reads and writes.
   * `target` is the `_go_to_index` attribute, which exists only once
   * `go_to_index` has accepted an index: the constructor initialises a
   * differently spelt `_got_to_index` instead.
   */
  datatype SeqState = SeqState(
    count: nat,
    skipEmpty: bool,
    skipOutdated: bool,
    currentIndex: Option<int>,
    skipping: bool,
    target: Option<int>)

  /** The skip flag is only ever set together with a target among the tickers. */
  predicate Valid(s: SeqState)
  {
    s.count > 0 &&
    (s.skipping ==> s.target.Some? && 0 <= s.target.value < s.count) &&
    (s.currentIndex.Some? ==> 0 <= s.currentIndex.value < s.count)
  }

  /** `Sequence.__init__`: an empty ticker list raises `ValueError`. */
  function NewSequence(count: nat, skipEmpty: bool, skipOutdated: bool): (r: Result<SeqState>)
    ensures r.Err? <==> count == 0
    ensures r.Err? ==> r.error == ValueError
    ensures r.Ok? ==> Valid(r.value) && !r.value.skipping && r.value.currentIndex.None?
    ensures r.Ok? ==> r.value.count == count && r.value.skipEmpty == skipEmpty && r.value.skipOutdated == skipOutdated
  {
    if count == 0 then Err(ValueError)
    else Ok(SeqState(count, skipEmpty, skipOutdated, None, false, None))
  }

  /**
   * `go_to_index`: an index outside the ticker list is logged and ignored;
   * any other one sets the skip flag and becomes the target.
   */
  function GoToIndex(s: SeqState, index: int): (r: SeqState)
    ensures index < 0 || index >= s.count ==> r == s
    ensures 0 <= index < s.count ==> r == s.(skipping := true, target := Some(index))
    ensures Valid(s) ==> Valid(r)
  {
    if index < 0 || index >= s.count then s else s.(skipping := true, target := Some(index))
  }

  /** `max(5 min, interval)`, doubled when it is exactly one day. */
  function OutdatedThreshold(intervalSeconds: int): (t: int)
    ensures t >= 300 && t >= intervalSeconds
    ensures intervalSeconds == 86400 ==> t == 2 * 86400
    ensures intervalSeconds != 86400 ==> t == intervalSeconds || (t == 300 && intervalSeconds < 300)
  {
    var m := if intervalSeconds > 300 then intervalSeconds else 300;
    if m == 86400 then 2 * m else m
  }

  /** What fetching a ticker gave: an exception, or a history (the price plays no part here). */
  datatype Outcome = Raised | Fetched(historical: seq<Row>)

  /** What the pass does with a fetched ticker; `Crash` ends the generator. */
  datatype Verdict = Show | Pass | Crash

  /**
   * The checks after a fetch: a raised exception is logged and passed over;
   * an empty history is passed over when `skip_empty`; with `skip_outdated`
   * a last candle older than the threshold is passed over, and reading the
   * last candle of an empty history raises `IndexError`, uncaught.
   */
  function Classify(o: Outcome, skipEmpty: bool, skipOutdated: bool, now: int, intervalSeconds: int): (v: Verdict)
    ensures v == Crash <==> o.Fetched? && |o.historical| == 0 && !skipEmpty && skipOutdated
    ensures v == Show <==>
              o.Fetched? && (skipEmpty ==> |o.historical| > 0) &&
              (skipOutdated ==>
                 (|o.historical| > 0 &&
                  now - o.historical[|o.historical| - 1].time <= OutdatedThreshold(intervalSeconds)))
  {
    match o
    case Raised => Pass
    case Fetched(h) =>
      if skipEmpty && |h| == 0 then Pass
      else if skipOutdated then
        if |h| == 0 then Crash
        else if now - h[|h| - 1].time > OutdatedThreshold(intervalSeconds) then Pass
        else Show
      else Show
  }

  /** One pass from ticker `i` on: the state after it, the tickers fetched and shown, and whether it crashed. */
  datatype PassResult = PassResult(state: SeqState, fetched: seq<nat>, shown: seq<nat>, crashed: bool)

  /**
   * The body of `for i, ticker in enumerate(self.tickers)` from index `i`
   * on; `verdicts[k]` is what fetching ticker `k` leads to.
   */
  function PassFrom(s: SeqState, i: nat, verdicts: seq<Verdict>): PassResult
    requires |verdicts| == s.count
    decreases s.count - i
  {
    if i >= s.count then PassResult(s, [], [], false)
    else if s.skipping && s.target != Some(i) then PassFrom(s, i + 1, verdicts)
    else
      var s1 := s.(skipping := false, currentIndex := Some(i));
      match verdicts[i]
      case Crash => PassResult(s1, [i], [], true)
      case Pass =>
        var rest := PassFrom(s1, i + 1, verdicts);
        rest.(fetched := [i] + rest.fetched)
      case Show =>
        var rest := PassFrom(s1, i + 1, verdicts);
        rest.(fetched := [i] + rest.fetched, shown := [i] + rest.shown)
  }

  /**
   * A pass keeps the state valid, and every ticker it fetched or showed
   * lies between `i` and the end of the list, in increasing order.
   */
  lemma {:induction false} PassFromValid(s: SeqState, i: nat, verdicts: seq<Verdict>)
    requires Valid(s) && |verdicts| == s.count
    ensures var r := PassFrom(s, i, verdicts);
            Valid(r.state) && r.state.count == s.count &&
            (forall k :: 0 <= k < |r.fetched| ==> i <= r.fetched[k] < s.count) &&
            (forall k :: 0 <= k < |r.shown| ==> i <= r.shown[k] < s.count)
    ensures forall a, b :: 0 <= a < b < |PassFrom(s, i, verdicts).fetched| ==>
              PassFrom(s, i, verdicts).fetched[a] < PassFrom(s, i, verdicts).fetched[b]
    ensures forall a, b :: 0 <= a < b < |PassFrom(s, i, verdicts).shown| ==>
              PassFrom(s, i, verdicts).shown[a] < PassFrom(s, i, verdicts).shown[b]
    decreases s.count - i
  {
    if i < s.count {
      if s.skipping && s.target != Some(i) {
        PassFromValid(s, i + 1, verdicts);
      } else {
        var s1 := s.(skipping := false, currentIndex := Some(i));
        if verdicts[i] != Crash {
          PassFromValid(s1, i + 1, verdicts);
        }
      }
    }
  }

  /** `current_index` is a position in the list whenever a fetch happens: the last one fetched. */
  lemma {:induction false} CurrentIndexIsLastFetched(s: SeqState, i: nat, verdicts: seq<Verdict>)
    requires |verdicts| == s.count
    ensures var r := PassFrom(s, i, verdicts);
            |r.fetched| > 0 ==> r.state.currentIndex == Some(r.fetched[|r.fetched| - 1])
    ensures var r := PassFrom(s, i, verdicts);
            |r.fetched| == 0 ==> r.state.currentIndex == s.currentIndex
    decreases s.count - i
  {
    if i < s.count {
      if s.skipping && s.target != Some(i) {
        CurrentIndexIsLastFetched(s, i + 1, verdicts);
      } else {
        var s1 := s.(skipping := false, currentIndex := Some(i));
        if verdicts[i] != Crash {
          CurrentIndexIsLastFetched(s1, i + 1, verdicts);
        }
      }
    }
  }

  /** `[lo, lo + 1, ..., hi - 1]`. */
  function Range(lo: nat, hi: nat): (r: seq<nat>)
    ensures |r| == if lo <= hi then hi - lo else 0
    ensures forall k :: 0 <= k < |r| ==> r[k] == lo + k
    decreases hi - lo
  {
    if lo >= hi then [] else [lo] + Range(lo + 1, hi)
  }

  /**
   * Without a pending skip, a pass in which every ticker is shown fetches
   * and shows them all in list order and ends with the flag still clear.
   */
  lemma {:induction false} PassShowsAll(s: SeqState, i: nat, verdicts: seq<Verdict>)
    requires |verdicts| == s.count && !s.skipping
    requires forall k :: 0 <= k < |verdicts| ==> verdicts[k] == Show
    ensures PassFrom(s, i, verdicts).shown == Range(i, s.count)
    ensures PassFrom(s, i, verdicts).fetched == Range(i, s.count)
    ensures !PassFrom(s, i, verdicts).crashed && !PassFrom(s, i, verdicts).state.skipping
    decreases s.count - i
  {
    if i < s.count {
      PassShowsAll(s.(skipping := false, currentIndex := Some(i)), i + 1, verdicts);
    }
  }

  /**
   * After `go_to_index(t)`, the pass skips every ticker before `t` without
   * fetching it, fetches `t` first, and clears the skip flag.
   */
  lemma {:induction false} SkipUntilTarget(s: SeqState, i: nat, verdicts: seq<Verdict>)
    requires |verdicts| == s.count && Valid(s) && s.skipping && i <= s.target.value
    ensures var r := PassFrom(s, i, verdicts);
            |r.fetched| > 0 && r.fetched[0] == s.target.value &&
            (forall k :: 0 <= k < |r.fetched| ==> r.fetched[k] >= s.target.value) &&
            (|r.shown| > 0 ==> r.shown[0] >= s.target.value) &&
            !r.state.skipping
    decreases s.count - i
  {
    var t := s.target.value;
    if i < t {
      SkipUntilTarget(s, i + 1, verdicts);
    } else {
      var s1 := s.(skipping := false, currentIndex := Some(i));
      if verdicts[i] != Crash {
        PassFromValid(s1, i + 1, verdicts);
        NoSkipStaysClear(s1, i + 1, verdicts);
      }
    }
  }

  /** A pass that starts without a pending skip never sets the flag. */
  lemma {:induction false} NoSkipStaysClear(s: SeqState, i: nat, verdicts: seq<Verdict>)
    requires |verdicts| == s.count && !s.skipping
    ensures !PassFrom(s, i, verdicts).state.skipping
    decreases s.count - i
  {
    if i < s.count {
      NoSkipStaysClear(s.(skipping := false, currentIndex := Some(i)), i + 1, verdicts);
    }
  }

  /** `m` passes that each show every ticker: the tickers shown, in order. */
  function Cycle(n: nat, m: nat): (r: seq<nat>)
    ensures |r| == n * m
  {
    if m == 0 then [] else Cycle(n, m - 1) + Range(0, n)
  }

  /**
   * With nothing skipped or failing the tickers are shown round-robin: the
   * `k`-th ticker shown is ticker `k mod n`.
   */
  lemma {:induction false} RoundRobin(n: nat, m: nat, k: nat)
    requires n > 0 && k < n * m
    ensures Cycle(n, m)[k] == k % n
  {
    if k < n * (m - 1) {
      RoundRobin(n, m - 1, k);
    } else {
      var j := k - n * (m - 1);
      assert Cycle(n, m)[k] == Range(0, n)[j];
      assert k == j + n * (m - 1);
      ModOfMultiple(j, n, m - 1);
    }
  }

  /** Euclidean remainder of a multiple of `n` plus a smaller offset. */
  lemma ModOfMultiple(j: nat, n: nat, q: nat)
    requires j < n
    ensures (j + n * q) % n == j
  {
    var x := j + n * q;
    var d := x / n;
    var r := x % n;
    assert n * (d - q) == j - r;
    if d - q >= 1 {
      MulAtLeast(n, d - q);
      assert false;
    } else if d - q <= -1 {
      MulAtLeast(n, q - d);
      assert false;
    }
  }

  lemma {:induction false} MulAtLeast(n: nat, k: int)
    requires k >= 1
    ensures n * k >= n
    decreases k
  {
    if k > 1 {
      MulAtLeast(n, k - 1);
      assert n * k == n * (k - 1) + n;
    }
  }

  /** One full pass without skips or failures contributes exactly one round of `Cycle`. */
  lemma PassIsOneRound(s: SeqState, verdicts: seq<Verdict>)
    requires |verdicts| == s.count && !s.skipping
    requires forall k :: 0 <= k < |verdicts| ==> verdicts[k] == Show
    ensures PassFrom(s, 0, verdicts).shown == Cycle(s.count, 1)
  {
    PassShowsAll(s, 0, verdicts);
  }
}
