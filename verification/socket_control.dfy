/**
 * `socket.py`: the messages another process sends over the local socket to
 * move the rotation to the next or previous ticker, and what the server
 * does with each one. The socket itself is not modelled: a message is the
 * decoded text of one read.
 */
module SocketControl {
  import opened Common
  import opened TickerSequence

  /** `Message`: the two values a client may send. */
  datatype Message = Next | Previous

  /** `Message.value`. */
  function Value(m: Message): string
  {
    match m
    case Next => "next"
    case Previous => "previous"
  }

  /** The message a decoded text is the value of, if any. */
  function Parse(text: string): (r: Option<Message>)
    ensures r.Some? ==> Value(r.value) == text
    ensures forall m: Message :: text == Value(m) ==> r == Some(m)
  {
    if text == "next" then Some(Next)
    else if text == "previous" then Some(Previous)
    else None
  }

  /**
   * One message in `handle_client`: "next" and "previous" request the
   * ticker after or before the current one, wrapping around (Python's `%`
   * with a positive modulus, like Dafny's); nothing happens before the
   * first fetch or for any other text, which is only logged.
   */
  function Handle(s: SeqState, text: string): (r: SeqState)
    requires s.count > 0
    ensures s.currentIndex.None? || Parse(text).None? ==> r == s
    ensures s.currentIndex.Some? && Parse(text) == Some(Next) ==>
              r == GoToIndex(s, (s.currentIndex.value + 1) % s.count)
    ensures s.currentIndex.Some? && Parse(text) == Some(Previous) ==>
              r == GoToIndex(s, (s.currentIndex.value - 1) % s.count)
  {
    match Parse(text)
    case None => s
    case Some(m) =>
      if s.currentIndex.None? then s
      else
        var c := s.currentIndex.value;
        match m
        case Next => GoToIndex(s, (c + 1) % s.count)
        case Previous => GoToIndex(s, (c - 1) % s.count)
  }

  /**
   * Both requests always lie among the tickers, so `go_to_index` accepts
   * them: the skip flag is set with the wrapped-around neighbour as target.
   */
  lemma RequestsAreAccepted(s: SeqState, text: string)
    requires Valid(s) && s.currentIndex.Some? && Parse(text).Some?
    ensures var c := s.currentIndex.value;
            var t := if Parse(text) == Some(Next) then (c + 1) % s.count else (c - 1) % s.count;
            0 <= t < s.count && Handle(s, text) == s.(skipping := true, target := Some(t))
  {
  }

  /** "previous" from the first ticker targets the last one; "next" from the last targets the first. */
  lemma WrapAround(s: SeqState)
    requires Valid(s) && s.currentIndex.Some?
    ensures s.currentIndex.value == 0 ==> Handle(s, "previous").target == Some(s.count - 1)
    ensures s.currentIndex.value == s.count - 1 ==> Handle(s, "next").target == Some(0)
  {
  }

  /** With a single ticker both requests target it. */
  lemma SingleTickerTargetsItself(s: SeqState, text: string)
    requires Valid(s) && s.count == 1 && s.currentIndex.Some? && Parse(text).Some?
    ensures Handle(s, text).skipping && Handle(s, text).target == Some(0)
  {
  }

  /** Handling a message keeps the sequence state valid. */
  lemma {:induction false} HandleAllValid(s: SeqState, texts: seq<string>)
    requires Valid(s)
    ensures Valid(HandleAll(s, texts))
    decreases |texts|
  {
    if |texts| > 0 {
      HandleAllValid(Handle(s, texts[0]), texts[1..]);
    }
  }

  /** The messages of one connection, handled in order. */
  function HandleAll(s: SeqState, texts: seq<string>): SeqState
    requires s.count > 0
    decreases |texts|
  {
    if |texts| == 0 then s
    else
      var s1 := Handle(s, texts[0]);
      HandleKeepsCount(s, texts[0]);
      HandleAll(s1, texts[1..])
  }

  lemma HandleKeepsCount(s: SeqState, text: string)
    requires s.count > 0
    ensures Handle(s, text).count == s.count && Handle(s, text).currentIndex == s.currentIndex
  {
  }
}
