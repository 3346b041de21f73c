/**
 * Model of packages/runtime/src/dispatcher.js: a registry from command names
 * to ordered handler lists, plus a list of handlers that run after every
 * command. Handlers are identified by tokens; the unsubscribe closures the
 * registry hands out are values naming what they will remove.
 */
module Dispatching {
  import opened Wrappers
  import opened Seqs
  import Values

  type Handler = Values.Handler

  /** `arr.indexOf(x)`: the first position of `x`, or -1. */
  function IndexOf(s: seq<Handler>, x: Handler): (r: int)
    ensures r == -1 <==> x !in s
    ensures r != -1 ==> 0 <= r < |s| && s[r] == x && forall k | 0 <= k < r :: s[k] != x
  {
    if s == [] then -1
    else if s[0] == x then 0
    else
      var i := IndexOf(s[1..], x);
      if i == -1 then -1 else i + 1
  }

  /**
   * `arr.splice(start, 1)` on a copy: a negative start counts from the end and
   * is clamped at 0, a start past the end is clamped to the length, and the
   * element there, if any, is removed.
   */
  function SpliceOne(s: seq<Handler>, start: int): seq<Handler>
  {
    var actual := if start < 0 then (if |s| + start < 0 then 0 else |s| + start)
                  else (if start < |s| then start else |s|);
    if actual < |s| then s[..actual] + s[actual + 1..] else s
  }

  /** What an unsubscribe closure does when called. */
  function Unsubscribed(s: seq<Handler>, x: Handler): seq<Handler>
  {
    SpliceOne(s, IndexOf(s, x))
  }

  /** Dropping the head of a list without repeats is filtering out the head. */
  lemma RemoveHeadIsFilter(s: seq<Handler>, p: Handler -> bool)
    requires Distinct(s) && s != []
    requires forall h :: p(h) <==> h != s[0]
    ensures s[1..] == Filter(s, p)
  {
    DistinctTail(s);
    assert !p(s[0]);
    FilterKeepsAll(s[1..], p);
  }

  /** Removing the element at `i` of a list without repeats is filtering out that element. */
  lemma {:induction false} RemoveAtIsFilter(s: seq<Handler>, i: nat, p: Handler -> bool)
    requires Distinct(s) && i < |s|
    requires forall h :: p(h) <==> h != s[i]
    ensures s[..i] + s[i + 1..] == Filter(s, p)
  {
    if i == 0 {
      RemoveHeadIsFilter(s, p);
    } else {
      var tail := s[1..];
      DistinctTail(s);
      assert p(s[0]) && tail[i - 1] == s[i];
      RemoveAtIsFilter(tail, i - 1, p);
      assert s[..i] + s[i + 1..] == [s[0]] + (tail[..i - 1] + tail[i..]);
    }
  }

  /**
   * Unsubscribing a subscribed handler from a list without repeats removes that
   * handler and nothing else, and the others keep their order.
   */
  lemma UnsubscribeRemoves(s: seq<Handler>, x: Handler)
    requires Distinct(s) && x in s
    ensures Unsubscribed(s, x) == Filter(s, (h: Handler) => h != x)
    ensures x !in Unsubscribed(s, x) && |Unsubscribed(s, x)| == |s| - 1
    ensures Distinct(Unsubscribed(s, x))
  {
    var i := IndexOf(s, x);
    var p := (h: Handler) => h != x;
    RemoveAtIsFilter(s, i, p);
    FilterDistinct(s, p);
    assert Unsubscribed(s, x) == s[..i] + s[i + 1..];
  }

  /** Subscribing a new handler and unsubscribing it again restores the list. */
  lemma SubscribeThenUnsubscribe(s: seq<Handler>, x: Handler)
    requires x !in s
    ensures Unsubscribed(s + [x], x) == s
  {
    assert IndexOf(s + [x], x) == |s| by {
      forall k | 0 <= k < |s| ensures (s + [x])[k] != x {
        assert (s + [x])[k] == s[k];
      }
    }
    assert (s + [x])[..|s|] == s;
  }

  /**
   * An unsubscribe called after its handler is gone: `indexOf` gives -1 and
   * `splice(-1, 1)` drops the current last handler; an empty list stays empty.
   */
  lemma StaleUnsubscribe(s: seq<Handler>, x: Handler)
    requires x !in s
    ensures Unsubscribed(s, x) == (if s == [] then [] else s[..|s| - 1])
  {
  }

  /**
   * In a list that may repeat a handler (the after-command list), unsubscribing
   * removes exactly one occurrence, the first.
   */
  lemma UnsubscribeRemovesFirst(s: seq<Handler>, x: Handler)
    requires x in s
    ensures var i := IndexOf(s, x);
      && Unsubscribed(s, x) == s[..i] + s[i + 1..]
      && (forall k | 0 <= k < i :: s[k] != x)
      && multiset(Unsubscribed(s, x)) == multiset(s) - multiset{x}
  {
    var i := IndexOf(s, x);
    var before, after := s[..i], s[i + 1..];
    assert Unsubscribed(s, x) == before + after;
    assert s == before + [x] + after;
    assert multiset(s) == multiset(before) + multiset{x} + multiset(after);
    assert multiset(before + after) == multiset(before) + multiset(after);
  }

  /** The unsubscribe function `subscribe` or `afterEveryCommand` returns. */
  datatype Unsubscribe =
    | NoOp                                        // `() => {}` for a handler already subscribed
    | FromCommand(command: string, handler: Handler)
    | FromAfter(handler: Handler)

  /** One handler call made by `dispatch`: after-command handlers get no argument. */
  datatype Invocation = Invocation(handler: Handler, payload: Option<Values.Value>)

  class Dispatcher {
    /** `#subs`: each command's handlers in subscription order. */
    var subs: map<string, seq<Handler>>
    /** `#aferHandlers`: the handlers run after every command, repeats allowed. */
    var afterHandlers: seq<Handler>

    /** `subscribe` never lets a handler into a command's list twice. */
    ghost predicate Valid()
      reads this
    {
      forall c | c in subs :: Distinct(subs[c])
    }

    constructor()
      ensures Valid() && subs == map[] && afterHandlers == []
    {
      subs := map[];
      afterHandlers := [];
    }

    /** The handlers registered for `commandName`, none if it was never subscribed to. */
    function HandlersOf(commandName: string): seq<Handler>
      reads this
    {
      if commandName in subs then subs[commandName] else []
    }

    /** `subscribe(commandName, handler)`. */
    method Subscribe(commandName: string, handler: Handler) returns (unsubscribe: Unsubscribe)
      requires Valid()
      modifies this
      ensures Valid() && afterHandlers == old(afterHandlers)
      ensures commandName in subs && subs.Keys == old(subs).Keys + {commandName}
      ensures forall c | c in old(subs) && c != commandName :: subs[c] == old(subs)[c]
      ensures handler in old(HandlersOf(commandName)) ==>
        subs[commandName] == old(HandlersOf(commandName)) && unsubscribe == NoOp
      ensures handler !in old(HandlersOf(commandName)) ==>
        subs[commandName] == old(HandlersOf(commandName)) + [handler] && unsubscribe == FromCommand(commandName, handler)
    {
      if commandName !in subs {
        subs := subs[commandName := []];
      }
      var handlers := subs[commandName];
      if handler in handlers {
        return NoOp;
      }
      assert Distinct(handlers + [handler]);
      subs := subs[commandName := handlers + [handler]];
      unsubscribe := FromCommand(commandName, handler);
    }

    /** `afterEveryCommand(handler)`: always appends, even a handler already present. */
    method AfterEveryCommand(handler: Handler) returns (unsubscribe: Unsubscribe)
      requires Valid()
      modifies this
      ensures Valid() && subs == old(subs)
      ensures afterHandlers == old(afterHandlers) + [handler]
      ensures unsubscribe == FromAfter(handler)
    {
      afterHandlers := afterHandlers + [handler];
      unsubscribe := FromAfter(handler);
    }

    /**
     * Calling an unsubscribe function. A command's list, once created, is never
     * deleted, so a command-unsubscribe always finds its list.
     */
    method CallUnsubscribe(unsubscribe: Unsubscribe)
      requires Valid()
      requires unsubscribe.FromCommand? ==> unsubscribe.command in subs
      modifies this
      ensures Valid() && subs.Keys == old(subs).Keys
      ensures unsubscribe.NoOp? ==> subs == old(subs) && afterHandlers == old(afterHandlers)
      ensures unsubscribe.FromCommand? ==>
        && subs == old(subs)[unsubscribe.command := Unsubscribed(old(subs)[unsubscribe.command], unsubscribe.handler)]
        && afterHandlers == old(afterHandlers)
      ensures unsubscribe.FromAfter? ==>
        subs == old(subs) && afterHandlers == Unsubscribed(old(afterHandlers), unsubscribe.handler)
    {
      match unsubscribe {
        case NoOp =>
        case FromCommand(command, handler) =>
          var handlers := subs[command];
          var index := IndexOf(handlers, handler);
          if handler in handlers {
            UnsubscribeRemoves(handlers, handler);
          } else {
            StaleUnsubscribe(handlers, handler);
            if handlers != [] {
              var kept := handlers[..|handlers| - 1];
              assert Distinct(kept) by {
                forall a, b | 0 <= a < b < |kept| ensures kept[a] != kept[b] {
                  assert kept[a] == handlers[a] && kept[b] == handlers[b];
                }
              }
            }
          }
          subs := subs[command := SpliceOne(handlers, index)];
        case FromAfter(handler) =>
          var index := IndexOf(afterHandlers, handler);
          afterHandlers := SpliceOne(afterHandlers, index);
      }
    }

    /**
     * `dispatch(commandName, payload)`: the calls it makes, in order, and
     * whether it warns that the command has no handlers.
     */
    method Dispatch(commandName: string, payload: Values.Value) returns (calls: seq<Invocation>, warned: bool)
      ensures warned <==> commandName !in subs
      ensures |calls| == |HandlersOf(commandName)| + |afterHandlers|
      ensures forall i | 0 <= i < |HandlersOf(commandName)| ::
        calls[i] == Invocation(HandlersOf(commandName)[i], Some(payload))
      ensures forall i | 0 <= i < |afterHandlers| ::
        calls[|HandlersOf(commandName)| + i] == Invocation(afterHandlers[i], None)
    {
      calls := [];
      var handlers: seq<Handler> := [];
      if commandName in subs {
        handlers := subs[commandName];
        warned := false;
        var i := 0;
        while i < |handlers|
          invariant 0 <= i <= |handlers|
          invariant |calls| == i
          invariant forall k | 0 <= k < i :: calls[k] == Invocation(handlers[k], Some(payload))
        {
          calls := calls + [Invocation(handlers[i], Some(payload))];
          i := i + 1;
        }
      } else {
        warned := true;
      }
      var j := 0;
      while j < |afterHandlers|
        invariant 0 <= j <= |afterHandlers|
        invariant |calls| == |handlers| + j
        invariant forall k | 0 <= k < |handlers| :: calls[k] == Invocation(handlers[k], Some(payload))
        invariant forall k | 0 <= k < j :: calls[|handlers| + k] == Invocation(afterHandlers[k], None)
      {
        calls := calls + [Invocation(afterHandlers[j], None)];
        j := j + 1;
      }
    }
  }
}
