/**
 * The dispatch engine: `DefaultDispatcher.dispatch` streams over a fixed list
 * of handlers, keeps the first whose `canHandle(bot, input)` holds and answers
 * with that handler's `handle(bot, input)`, whatever it returns.
 */
module Dispatch {
  import opened Wrappers

  /**
   * The `Handler` interface: a predicate, the work it guards and the
   * `Ordered.getOrder` priority. The bot configuration is nullable, hence
   * `Option<B>`.
   */
  datatype Handler<!B, !I, O> = Handler(
    canHandle: (Option<B>, I) -> bool,
    handle: (Option<B>, I) -> Option<O>,
    order: int)

  /**
   * What one dispatch call does: how many handlers were asked `canHandle`
   * (the stream is lazy and `findFirst` stops at the first match), the index
   * of the handler whose `handle` ran, if any, and the answer.
   */
  datatype Evaluation<O> = Evaluation(asked: nat, chosen: Option<nat>, result: Option<O>)

  /** `handlers[k]` is the first handler, in list order, that accepts (bot, input). */
  ghost predicate IsFirstMatch<B, I, O>(handlers: seq<Handler<B, I, O>>, bot: Option<B>, input: I, k: nat) {
    && k < |handlers|
    && handlers[k].canHandle(bot, input)
    && forall j :: 0 <= j < k ==> !handlers[j].canHandle(bot, input)
  }

  /** No handler in the list accepts (bot, input). */
  ghost predicate NoneMatches<B, I, O>(handlers: seq<Handler<B, I, O>>, bot: Option<B>, input: I) {
    forall j :: 0 <= j < |handlers| ==> !handlers[j].canHandle(bot, input)
  }

  /** The stream pipeline filter / findFirst / flatMap, one handler at a time. */
  function Run<B, I, O>(handlers: seq<Handler<B, I, O>>, bot: Option<B>, input: I): (e: Evaluation<O>)
    ensures e.asked <= |handlers|
    ensures e.chosen.Some? ==> e.chosen.value < |handlers| && e.asked == e.chosen.value + 1
    ensures e.chosen.None? ==> e.asked == |handlers| && e.result == None
    decreases |handlers|
  {
    if handlers == [] then Evaluation(0, None, None)
    else if handlers[0].canHandle(bot, input) then Evaluation(1, Some(0), handlers[0].handle(bot, input))
    else
      var e := Run(handlers[1..], bot, input);
      Evaluation(e.asked + 1, if e.chosen.Some? then Some(e.chosen.value + 1) else None, e.result)
  }

  /**
   * DefaultDispatcher: its only field is the handler list given to the
   * constructor, which `Dispatch` only reads. The list is held as a value:
   * it is taken to be unchanged by its owner after construction.
   */
  datatype DefaultDispatcher<!B, !I, O> = DefaultDispatcher(handlers: seq<Handler<B, I, O>>) {

    /** dispatch: the first accepting handler's answer, or nothing when none accepts. */
    function Dispatch(bot: Option<B>, input: I): (r: Option<O>)
      ensures forall k: nat :: IsFirstMatch(handlers, bot, input, k) ==> r == handlers[k].handle(bot, input)
      ensures NoneMatches(handlers, bot, input) ==> r == None
    {
      RunSelectsFirstMatch(handlers, bot, input);
      Run(handlers, bot, input).result
    }
  }

  /**
   * The run selects exactly the first accepting handler, asks nothing past
   * it, and answers with its `handle`; with no accepting handler every
   * handler is asked, none is invoked and the answer is empty.
   */
  lemma {:induction false} RunSelectsFirstMatch<B, I, O>(handlers: seq<Handler<B, I, O>>, bot: Option<B>, input: I)
    ensures forall k: nat :: Run(handlers, bot, input).chosen == Some(k) <==> IsFirstMatch(handlers, bot, input, k)
    ensures Run(handlers, bot, input).chosen == None <==> NoneMatches(handlers, bot, input)
    ensures forall k: nat :: IsFirstMatch(handlers, bot, input, k) ==>
      Run(handlers, bot, input).asked == k + 1 && Run(handlers, bot, input).result == handlers[k].handle(bot, input)
    decreases |handlers|
  {
    if handlers == [] {
    } else if handlers[0].canHandle(bot, input) {
      forall k: nat | IsFirstMatch(handlers, bot, input, k) ensures k == 0 {
      }
    } else {
      RunSelectsFirstMatch(handlers[1..], bot, input);
      MatchesPastRejectingHead(handlers, bot, input);
    }
  }

  /** When the first handler rejects, matches in the list are the matches in its tail, one place further on. */
  lemma MatchesPastRejectingHead<B, I, O>(handlers: seq<Handler<B, I, O>>, bot: Option<B>, input: I)
    requires handlers != [] && !handlers[0].canHandle(bot, input)
    ensures forall k: nat :: IsFirstMatch(handlers, bot, input, k) <==>
      k > 0 && IsFirstMatch(handlers[1..], bot, input, k - 1)
    ensures NoneMatches(handlers, bot, input) <==> NoneMatches(handlers[1..], bot, input)
  {
    var tail := handlers[1..];
    forall k: nat ensures IsFirstMatch(handlers, bot, input, k + 1) <==> IsFirstMatch(tail, bot, input, k) {
      if IsFirstMatch(tail, bot, input, k) {
        forall j | 0 <= j < k + 1 ensures !handlers[j].canHandle(bot, input) {
          if j > 0 { assert handlers[j] == tail[j - 1]; }
        }
      }
    }
    assert !IsFirstMatch(handlers, bot, input, 0);
    forall k: nat | IsFirstMatch(handlers, bot, input, k) ensures k > 0 && IsFirstMatch(tail, bot, input, k - 1) {
    }
    assert NoneMatches(handlers, bot, input) <==> NoneMatches(tail, bot, input) by {
      if NoneMatches(tail, bot, input) {
        forall j | 0 <= j < |handlers| ensures !handlers[j].canHandle(bot, input) {
          if j > 0 { assert handlers[j] == tail[j - 1]; }
        }
      }
    }
  }

  /** dispatch answers with the first accepting handler's `handle`, and with nothing when no handler accepts. */
  lemma DispatchIsFirstMatch<B, I, O>(d: DefaultDispatcher<B, I, O>, bot: Option<B>, input: I, k: nat)
    requires IsFirstMatch(d.handlers, bot, input, k)
    ensures d.Dispatch(bot, input) == d.handlers[k].handle(bot, input)
    ensures Run(d.handlers, bot, input).asked == k + 1
  {
    RunSelectsFirstMatch(d.handlers, bot, input);
  }

  /** With no accepting handler, dispatch is empty and no `handle` is invoked. */
  lemma DispatchNoMatch<B, I, O>(d: DefaultDispatcher<B, I, O>, bot: Option<B>, input: I)
    requires NoneMatches(d.handlers, bot, input)
    ensures d.Dispatch(bot, input) == None
    ensures Run(d.handlers, bot, input).chosen == None
    ensures Run(d.handlers, bot, input).asked == |d.handlers|
  {
    RunSelectsFirstMatch(d.handlers, bot, input);
  }

  /**
   * No fall-through: when the selected handler answers empty, dispatch is
   * empty even though a later handler accepts and would answer.
   */
  lemma DispatchDoesNotFallThrough<B, I, O>(d: DefaultDispatcher<B, I, O>, bot: Option<B>, input: I, k: nat, later: nat)
    requires IsFirstMatch(d.handlers, bot, input, k)
    requires d.handlers[k].handle(bot, input) == None
    requires k < later < |d.handlers| && d.handlers[later].canHandle(bot, input)
    ensures d.Dispatch(bot, input) == None
    ensures Run(d.handlers, bot, input).chosen == Some(k)
  {
    RunSelectsFirstMatch(d.handlers, bot, input);
  }

  /** The handlers are in non-decreasing `getOrder` order (the DI container sorts them; dispatch does not). */
  ghost predicate SortedByOrder<B, I, O>(handlers: seq<Handler<B, I, O>>) {
    forall i, j :: 0 <= i < j < |handlers| ==> handlers[i].order <= handlers[j].order
  }

  /**
   * Over a list sorted by order, the handler that answers has the lowest
   * order among all accepting handlers, and comes first among ties.
   */
  lemma DispatchPicksLowestOrder<B, I, O>(d: DefaultDispatcher<B, I, O>, bot: Option<B>, input: I, j: nat)
    requires SortedByOrder(d.handlers)
    requires j < |d.handlers| && d.handlers[j].canHandle(bot, input)
    ensures Run(d.handlers, bot, input).chosen.Some?
    ensures var k := Run(d.handlers, bot, input).chosen.value;
      k <= j && d.handlers[k].order <= d.handlers[j].order &&
      d.Dispatch(bot, input) == d.handlers[k].handle(bot, input)
  {
    RunSelectsFirstMatch(d.handlers, bot, input);
    assert !NoneMatches(d.handlers, bot, input);
    var k := Run(d.handlers, bot, input).chosen.value;
    assert IsFirstMatch(d.handlers, bot, input, k);
  }

  /**
   * A catch-all (accepts everything) ordered last: input that no earlier
   * handler accepts is answered by the catch-all.
   */
  lemma CatchAllAnswersTheRest<B, I, O>(d: DefaultDispatcher<B, I, O>, bot: Option<B>, input: I)
    requires |d.handlers| > 0
    requires d.handlers[|d.handlers| - 1].canHandle(bot, input)
    requires forall j :: 0 <= j < |d.handlers| - 1 ==> !d.handlers[j].canHandle(bot, input)
    ensures d.Dispatch(bot, input) == d.handlers[|d.handlers| - 1].handle(bot, input)
  {
    DispatchIsFirstMatch(d, bot, input, |d.handlers| - 1);
  }

  /** Some handler is always invoked once an accepting handler is registered anywhere in the list. */
  lemma CatchAllAlwaysInvokesAHandler<B, I, O>(d: DefaultDispatcher<B, I, O>, bot: Option<B>, input: I, c: nat)
    requires c < |d.handlers| && d.handlers[c].canHandle(bot, input)
    ensures Run(d.handlers, bot, input).chosen.Some?
    ensures Run(d.handlers, bot, input).chosen.value <= c
  {
    RunSelectsFirstMatch(d.handlers, bot, input);
    assert !NoneMatches(d.handlers, bot, input);
  }

  /**
   * dispatch observes its handlers only through `canHandle(bot, input)` and
   * `handle(bot, input)` for the very `bot` and `input` it was given: two
   * lists that agree there dispatch alike.
   */
  lemma {:induction false} DispatchSeesOnlyItsArguments<B, I, O>(
    h1: seq<Handler<B, I, O>>, h2: seq<Handler<B, I, O>>, bot: Option<B>, input: I)
    requires |h1| == |h2|
    requires forall j :: 0 <= j < |h1| ==>
      h1[j].canHandle(bot, input) == h2[j].canHandle(bot, input) &&
      h1[j].handle(bot, input) == h2[j].handle(bot, input)
    ensures Run(h1, bot, input) == Run(h2, bot, input)
    decreases |h1|
  {
    if h1 != [] && !h1[0].canHandle(bot, input) {
      DispatchSeesOnlyItsArguments(h1[1..], h2[1..], bot, input);
    }
  }
}
