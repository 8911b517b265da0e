/**
 * The page script that grows and shrinks the repeated `.ticker` blocks of
 * the configuration form (`add_ticker` / `remove_ticker`).
 *
 * The page is the sequence of attached `.ticker` elements in document
 * order. A block carries its class list, its form fields (copied verbatim
 * by `cloneNode(true)`) and the number of `animationend` listeners that
 * detach it. The browser's firing of `animationend` on a block is the
 * separate event `AnimationEnd`.
 */
module TickerList {

  const TickerClass := "ticker"
  const SlideRight := "uk-animation-slide-right"
  const SlideTop := "uk-animation-slide-top"
  const Reverse := "uk-animation-reverse"

  /** One attached `.ticker` element. */
  datatype Block = Block(classes: set<string>, fields: seq<(string, string)>, listeners: nat)

  /** A block whose removal animation has been requested. */
  predicate Exiting(b: Block) {
    SlideTop in b.classes && Reverse in b.classes && b.listeners > 0
  }

  /** `cloneNode(true)`: attributes and children are copied, listeners are not. */
  function Clone(b: Block): (c: Block)
    ensures c.classes == b.classes && c.fields == b.fields
    ensures c.listeners == 0 && !Exiting(c)
  {
    b.(listeners := 0)
  }

  /**
   * `add_ticker()`: a clone of the last block is inserted right after it.
   * With no block left, `tickers[tickers.length - 1]` is `undefined` and the
   * call throws before touching the page.
   */
  function AddTicker(page: seq<Block>): (r: seq<Block>)
    ensures |page| == 0 ==> r == page
    ensures |page| > 0 ==> |r| == |page| + 1
    ensures |page| > 0 ==> r[..|page|] == page
    ensures |page| > 0 ==> r[|page|].classes == page[|page| - 1].classes
    ensures |page| > 0 ==> r[|page|].fields == page[|page| - 1].fields
    ensures |page| > 0 ==> r[|page|].listeners == 0
  {
    if |page| == 0 then page else page + [Clone(page[|page| - 1])]
  }

  /** The class and listener changes `remove_ticker` makes to its target block. */
  function MarkExiting(b: Block): (r: Block)
    ensures Exiting(r)
    ensures SlideRight !in r.classes
    ensures r.fields == b.fields
    ensures forall c :: c in b.classes && c != SlideRight ==> c in r.classes
    ensures r.classes <= b.classes + {SlideTop, Reverse}
  {
    Block(b.classes - {SlideRight} + {SlideTop, Reverse}, b.fields, b.listeners + 1)
  }

  /**
   * `remove_ticker(element)` where `element.parentNode` is block `i`.
   * The one-block guard counts every attached block, including blocks that
   * are already animating out; nothing is detached here.
   */
  function RemoveTicker(page: seq<Block>, i: nat): (r: seq<Block>)
    requires i < |page|
    ensures |r| == |page|
    ensures |page| == 1 ==> r == page
    ensures |page| != 1 ==> r[i] == MarkExiting(page[i])
    ensures forall k :: 0 <= k < |page| && k != i ==> r[k] == page[k]
  {
    if |page| == 1 then page else page[i := MarkExiting(page[i])]
  }

  /**
   * The browser fires `animationend` on block `i`. The first registered
   * listener detaches the block; any further listener finds `parentNode`
   * null and throws, which changes nothing more.
   */
  function AnimationEnd(page: seq<Block>, i: nat): (r: seq<Block>)
    requires i < |page|
    ensures page[i].listeners == 0 ==> r == page
    ensures page[i].listeners > 0 ==> |r| == |page| - 1
    ensures page[i].listeners > 0 ==> r[..i] == page[..i] && r[i..] == page[i + 1..]
  {
    if page[i].listeners == 0 then page else page[..i] + page[i + 1..]
  }

  /** A user or browser event acting on the page. */
  datatype Event = Add | Remove(target: nat) | AnimEnd(target: nat)

  /** Applies one event; events aimed at a block that is not attached do nothing. */
  function Step(page: seq<Block>, e: Event): seq<Block>
  {
    match e
    case Add => AddTicker(page)
    case Remove(i) => if i < |page| then RemoveTicker(page, i) else page
    case AnimEnd(i) => if i < |page| then AnimationEnd(page, i) else page
  }

  function Run(page: seq<Block>, events: seq<Event>): seq<Block>
    decreases |events|
  {
    if |events| == 0 then page else Run(Step(page, events[0]), events[1..])
  }

  /** Only an `animationend` event ever shortens the page. */
  lemma OnlyAnimationEndDetaches(page: seq<Block>, e: Event)
    ensures |Step(page, e)| < |page| ==> e.AnimEnd?
    ensures e.Add? && |page| > 0 ==> |Step(page, e)| == |page| + 1
  {
  }

  /**
   * Adding a block and then removing the new block restores the page once
   * the removal animation ends, and not before.
   */
  lemma AddRemoveRoundTrip(page: seq<Block>)
    requires |page| >= 1
    ensures |RemoveTicker(AddTicker(page), |page|)| == |page| + 1
    ensures AnimationEnd(RemoveTicker(AddTicker(page), |page|), |page|) == page
  {
    var added := AddTicker(page);
    var removed := RemoveTicker(added, |page|);
    assert removed[..|page|] == page;
  }

  /** Removing from a page of one block changes nothing, whatever its state. */
  lemma {:induction false} SoleBlockIsKept(b: Block, events: seq<Event>)
    requires forall k :: 0 <= k < |events| ==> events[k].Remove?
    ensures Run([b], events) == [b]
    decreases |events|
  {
    if |events| > 0 {
      SoleBlockIsKept(b, events[1..]);
    }
  }

  /**
   * The guard does not prevent an empty page: two removals started while
   * two blocks are attached both pass it, and both blocks are detached
   * when their animations end. `add_ticker` cannot recover from there.
   */
  lemma OverlappingRemovalsEmptyThePage(a: Block, b: Block)
    ensures Run([a, b], [Remove(0), Remove(1), AnimEnd(0), AnimEnd(0)]) == []
    ensures Run([], [Add]) == []
  {
    var p1 := Step([a, b], Remove(0));
    assert p1 == [MarkExiting(a), b];
    var p2 := Step(p1, Remove(1));
    assert p2 == [MarkExiting(a), MarkExiting(b)];
    var p3 := Step(p2, AnimEnd(0));
    assert p3 == [MarkExiting(b)];
    var p4 := Step(p3, AnimEnd(0));
    assert p4 == [];
    assert Run(p4, []) == [];
    assert Run(p3, [AnimEnd(0)]) == Run(p4, []);
    assert Run(p2, [AnimEnd(0), AnimEnd(0)]) == Run(p3, [AnimEnd(0)]);
    assert Run(p1, [Remove(1), AnimEnd(0), AnimEnd(0)]) == Run(p2, [AnimEnd(0), AnimEnd(0)]);
  }

  /**
   * Cloning a block that is animating out copies its exit classes but not
   * its listener, so the clone's own `animationend` never detaches it.
   */
  lemma CloneOfExitingBlockStays(page: seq<Block>)
    requires |page| >= 2
    ensures var p := AddTicker(RemoveTicker(page, |page| - 1));
            SlideTop in p[|page|].classes && p[|page|].listeners == 0 &&
            AnimationEnd(p, |page|) == p
  {
  }
}
