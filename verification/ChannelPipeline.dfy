/** The channel pipeline: handler contexts in a doubly linked list between a head and a tail. */
module ChannelPipelines {
  /** A handler takes part in inbound events, in outbound events, or in both. */
  class ChannelHandler {
    const inbound: bool
    const outbound: bool

    constructor (inbound: bool, outbound: bool)
      ensures this.inbound == inbound && this.outbound == outbound
    {
      this.inbound, this.outbound := inbound, outbound;
    }
  }

  class ChannelHandlerContext {
    const handler: ChannelHandler
    var next: ChannelHandlerContext?
    var prev: ChannelHandlerContext?
    var removeHandlerInvoked: bool

    constructor (handler: ChannelHandler)
      ensures this.handler == handler && next == null && prev == null && !removeHandlerInvoked
    {
      this.handler := handler;
      next, prev, removeHandlerInvoked := null, null, false;
    }
  }

  type Contexts = seq<ChannelHandlerContext>

  /** The context at a position, null outside of the list. */
  function At(list: Contexts, i: int): ChannelHandlerContext? { if 0 <= i < |list| then list[i] else null }

  /** The contexts are different, linked both ways in this order, and none of them was told that it
      is removed. */
  ghost predicate Linked(list: Contexts)
    reads list
  {
    && (forall i, j | 0 <= i < j < |list| :: list[i] != list[j])
    && (forall i {:trigger list[i].next} | 0 <= i < |list| :: list[i].next == At(list, i + 1))
    && (forall i {:trigger list[i].prev} | 0 <= i < |list| :: list[i].prev == At(list, i - 1))
    && (forall i {:trigger list[i].removeHandlerInvoked} | 0 <= i < |list| :: !list[i].removeHandlerInvoked)
  }

  function Handlers(list: Contexts): seq<ChannelHandler> {
    seq(|list|, i requires 0 <= i < |list| => list[i].handler)
  }

  // ----- what the operations mean for the sequence of handlers

  datatype Position =
    | First
    | Last
    | Before(handler: ChannelHandler)
    | After(handler: ChannelHandler)

  datatype AddResult = Success | IoOnClosedChannel | NotFound

  /** The first place of a handler, the length if there is none. */
  function IndexOf(s: seq<ChannelHandler>, h: ChannelHandler): (i: nat)
    ensures i <= |s| && (i < |s| ==> s[i] == h) && h !in s[..i]
    ensures i == |s| <==> h !in s
  {
    if s == [] then 0 else if s[0] == h then 0 else 1 + IndexOf(s[1..], h)
  }

  function InsertAt(s: seq<ChannelHandler>, i: nat, h: ChannelHandler): seq<ChannelHandler>
    requires i <= |s|
  {
    s[..i] + [h] + s[i..]
  }

  predicate Found(s: seq<ChannelHandler>, position: Position) {
    position.Before? || position.After? ==> position.handler in s
  }

  function Added(s: seq<ChannelHandler>, h: ChannelHandler, position: Position): seq<ChannelHandler>
    requires Found(s, position)
  {
    match position
    case First => InsertAt(s, 0, h)
    case Last => InsertAt(s, |s|, h)
    case Before(other) => InsertAt(s, IndexOf(s, other), h)
    case After(other) => InsertAt(s, IndexOf(s, other) + 1, h)
  }

  function Removed(s: seq<ChannelHandler>, h: ChannelHandler): seq<ChannelHandler> {
    var i := IndexOf(s, h);
    if i == |s| then s else s[..i] + s[i + 1..]
  }

  lemma {:induction false} IndexAfter(before: seq<ChannelHandler>, rest: seq<ChannelHandler>)
    requires rest != [] && rest[0] !in before
    ensures IndexOf(before + rest, rest[0]) == |before|
    decreases |before|
  {
    if before == [] {
      assert before + rest == rest;
    } else {
      IndexAfter(before[1..], rest);
      assert (before + rest)[1..] == before[1..] + rest;
    }
  }

  /** Adding at either end, around the first occurrence of a handler, and taking that away. */
  lemma AddedAndRemoved(before: seq<ChannelHandler>, other: ChannelHandler, after: seq<ChannelHandler>, h: ChannelHandler)
    requires other !in before
    ensures var s := before + [other] + after;
            && Found(s, First) && Added(s, h, First) == [h] + s
            && Found(s, Last) && Added(s, h, Last) == s + [h]
            && Found(s, Before(other)) && Added(s, h, Before(other)) == before + [h, other] + after
            && Found(s, After(other)) && Added(s, h, After(other)) == before + [other, h] + after
            && Removed(s, other) == before + after
    ensures !Found(before, Before(other)) && !Found(before, After(other)) && Removed(before, other) == before
    ensures Found([], First) && Found([], Last) && Added([], h, First) == [h] && Added([], h, Last) == [h]
  {
    var s := before + [other] + after;
    assert s[|before|] == other;
    IndexAfter(before, [other] + after);
    assert s == before + ([other] + after);
    assert s[..|before|] == before && s[|before|..] == [other] + after && s[|before| + 1..] == after;
    assert s[..|before| + 1] == before + [other];
  }

  // ----- links

  function Inserted(list: Contexts, n: nat, c: ChannelHandlerContext): (r: Contexts)
    requires n <= |list|
    ensures |r| == |list| + 1
    ensures forall k: int | 0 <= k < |r| :: r[k] == if k < n then list[k] else if k == n then c else list[k - 1]
  {
    list[..n] + [c] + list[n..]
  }

  function Without(list: Contexts, n: nat): (r: Contexts)
    requires n < |list|
    ensures |r| == |list| - 1
    ensures forall k: int | 0 <= k < |r| :: r[k] == if k < n then list[k] else list[k + 1]
  {
    list[..n] + list[n + 1..]
  }

  function Just(c: ChannelHandlerContext?): set<ChannelHandlerContext> { if c == null then {} else {c} }

  /** `add0(context:after:)`: four links. */
  method AddAfter(new_: ChannelHandlerContext, existing: ChannelHandlerContext)
    requires new_ != existing && new_ != existing.next && existing != existing.next
    modifies existing`next, new_`next, new_`prev, Just(existing.next)`prev
    ensures new_.prev == existing && new_.next == old(existing.next) && existing.next == new_
    ensures new_.next != null ==> new_.next.prev == new_
  {
    var next := existing.next;
    new_.prev := existing;
    new_.next := next;
    existing.next := new_;
    if next != null {
      next.prev := new_;
    }
  }

  /** `add0(context:before:)`. */
  method AddBefore(new_: ChannelHandlerContext, existing: ChannelHandlerContext)
    requires new_ != existing && new_ != existing.prev && existing != existing.prev
    modifies existing`prev, new_`next, new_`prev, Just(existing.prev)`next
    ensures new_.next == existing && new_.prev == old(existing.prev) && existing.prev == new_
    ensures new_.prev != null ==> new_.prev.next == new_
  {
    var prev := existing.prev;
    new_.prev := prev;
    new_.next := existing;
    existing.prev := new_;
    if prev != null {
      prev.next := new_;
    }
  }

  /** `removeHandlerFromPipeline`, up to the callout. */
  method Unlink(context: ChannelHandlerContext)
    requires context != context.next && context != context.prev
    modifies Just(context.next)`prev, Just(context.prev)`next
    ensures context.next == old(context.next) && context.prev == old(context.prev)
    ensures context.next != null ==> context.next.prev == context.prev
    ensures context.prev != null ==> context.prev.next == context.next
  {
    var nextCtx := context.next;
    var prevCtx := context.prev;
    if prevCtx != null {
      prevCtx.next := nextCtx;
    }
    if nextCtx != null {
      nextCtx.prev := prevCtx;
    }
  }

  /** The list after the links around position n changed. */
  method InsertAfter(new_: ChannelHandlerContext, existing: ChannelHandlerContext, ghost list: Contexts, ghost i: nat)
    requires Linked(list) && i < |list| && list[i] == existing && new_ !in list && !new_.removeHandlerInvoked
    modifies new_`next, new_`prev, list`next, list`prev
    ensures Linked(Inserted(list, i + 1, new_))
  {
    AddAfter(new_, existing);
    ghost var l := Inserted(list, i + 1, new_);
    forall k | 0 <= k < |l|
      ensures l[k].next == At(l, k + 1) && l[k].prev == At(l, k - 1) && !l[k].removeHandlerInvoked
    {
      if k <= i {
        assert old(list[k].next) == At(list, k + 1) && old(list[k].prev) == At(list, k - 1);
      } else if k > i + 1 {
        assert old(list[k - 1].next) == At(list, k) && old(list[k - 1].prev) == At(list, k - 2);
      }
    }
  }

  method InsertBefore(new_: ChannelHandlerContext, existing: ChannelHandlerContext, ghost list: Contexts, ghost i: nat)
    requires Linked(list) && i < |list| && list[i] == existing && new_ !in list && !new_.removeHandlerInvoked
    modifies new_`next, new_`prev, list`next, list`prev
    ensures Linked(Inserted(list, i, new_))
  {
    AddBefore(new_, existing);
    ghost var l := Inserted(list, i, new_);
    forall k | 0 <= k < |l|
      ensures l[k].next == At(l, k + 1) && l[k].prev == At(l, k - 1) && !l[k].removeHandlerInvoked
    {
      if k < i {
        assert old(list[k].next) == At(list, k + 1) && old(list[k].prev) == At(list, k - 1);
      } else if k > i {
        assert old(list[k - 1].next) == At(list, k) && old(list[k - 1].prev) == At(list, k - 2);
      }
    }
  }

  /** What a context is once it has left. */
  ghost predicate Left(c: ChannelHandlerContext)
    reads c
  {
    c.next == null && c.prev == null && c.removeHandlerInvoked
  }

  function Reversed(s: seq<ChannelHandler>): seq<ChannelHandler> {
    if s == [] then [] else Reversed(s[1..]) + [s[0]]
  }

  function InOrder(handlers: seq<ChannelHandler>, position: Position): seq<ChannelHandler> {
    if position.First? || position.After? then Reversed(handlers) else handlers
  }

  lemma FoundKept(s: seq<ChannelHandler>, h: ChannelHandler, position: Position)
    requires Found(s, position)
    ensures Found(Added(s, h, position), position)
  {
    if position.Before? || position.After? {
      var i := IndexOf(s, position.handler);
      assert s == s[..i] + s[i..];
    }
  }

  /** One after the other, as long as the place is found. */
  function AddedAll(s: seq<ChannelHandler>, hs: seq<ChannelHandler>, position: Position): seq<ChannelHandler>
    decreases |hs|
  {
    if hs == [] || !Found(s, position) then s else AddedAll(Added(s, hs[0], position), hs[1..], position)
  }

  lemma AddedAllStep(s: seq<ChannelHandler>, hs: seq<ChannelHandler>, k: nat, position: Position)
    requires k < |hs| && Found(s, position)
    ensures Found(Added(s, hs[k], position), position)
    ensures AddedAll(s, hs[k..], position) == AddedAll(Added(s, hs[k], position), hs[k + 1..], position)
  {
    FoundKept(s, hs[k], position);
    assert hs[k..][1..] == hs[k + 1..];
  }

  // ----- events and runs

  /** The inbound handlers of a list in its order, and the outbound ones in the opposite order. */
  function Inbound(s: seq<ChannelHandler>): seq<ChannelHandler> {
    if s == [] then [] else (if s[0].inbound then [s[0]] else []) + Inbound(s[1..])
  }

  function Outbound(s: seq<ChannelHandler>): seq<ChannelHandler> {
    if s == [] then []
    else (if s[|s| - 1].outbound then [s[|s| - 1]] else []) + Outbound(s[..|s| - 1])
  }

  /** Where the inbound handlers from a position on are. */
  lemma {:induction false} InboundAt(s: seq<ChannelHandler>, n: nat) returns (at: seq<nat>)
    requires n <= |s|
    ensures |at| == |Inbound(s[n..])| && forall k | 0 <= k < |at| :: n <= at[k] < |s| && Inbound(s[n..])[k] == s[at[k]] && s[at[k]].inbound
    ensures forall j, k | 0 <= j < k < |at| :: at[j] < at[k]
    ensures forall p {:trigger p in at} | n <= p < |s| && s[p].inbound :: p in at
    decreases |s| - n
  {
    at := [];
    if n < |s| {
      var rest := InboundAt(s, n + 1);
      assert s[n..][1..] == s[n + 1..];
      at := if s[n].inbound then [n] + rest else rest;
      assert forall p {:trigger p in at} | p in rest :: p in at;
    }
  }

  lemma OneOutbound(s: seq<ChannelHandler>, n: nat)
    requires n <= |s|
    ensures Outbound(s[..n]) ==
            if n == 0 then [] else (if s[n - 1].outbound then [s[n - 1]] else []) + Outbound(s[..n - 1])
  {
    if n > 0 {
      assert s[..n][..n - 1] == s[..n - 1];
    }
  }

  /** `at` are the positions of the outbound handlers before n, the last first, and `values` these handlers. */
  predicate ArePlaces(s: seq<ChannelHandler>, n: nat, at: seq<nat>, values: seq<ChannelHandler>)
    requires n <= |s|
  {
    && |at| == |values| && (forall k | 0 <= k < |at| :: at[k] < n && values[k] == s[at[k]] && values[k].outbound)
    && (forall j, k | 0 <= j < k < |at| :: at[j] > at[k])
    && (forall p {:trigger p in at} | 0 <= p < n && s[p].outbound :: p in at)
  }

  lemma {:induction false} OutboundAt(s: seq<ChannelHandler>, n: nat) returns (at: seq<nat>)
    requires n <= |s|
    ensures ArePlaces(s, n, at, Outbound(s[..n]))
    decreases n
  {
    hide Outbound, ArePlaces;
    OneOutbound(s, n);
    if n == 0 {
      at := [];
      NoPlaces(s);
    } else {
      at := OutboundAt(s, n - 1);
      MorePlaces(s, n - 1, at, Outbound(s[..n - 1]));
      at := if s[n - 1].outbound then [n - 1] + at else at;
    }
  }

  lemma NoPlaces(s: seq<ChannelHandler>)
    ensures ArePlaces(s, 0, [], [])
  {
  }

  lemma MorePlaces(s: seq<ChannelHandler>, n: nat, at: seq<nat>, values: seq<ChannelHandler>)
    requires n < |s| && ArePlaces(s, n, at, values)
    ensures ArePlaces(s, n + 1, if s[n].outbound then [n] + at else at, (if s[n].outbound then [s[n]] else []) + values)
  {
    if s[n].outbound {
      OnePlaceMore(s, n, at, values);
      InFront(n, at);
    } else {
      assert [] + values == values;
    }
  }

  lemma OnePlaceMore(s: seq<ChannelHandler>, n: nat, rest: seq<nat>, values: seq<ChannelHandler>)
    requires n < |s| && s[n].outbound && |values| == |rest|
    requires forall k | 0 <= k < |rest| :: rest[k] < n && values[k] == s[rest[k]] && values[k].outbound
    ensures var at, now := [n] + rest, [s[n]] + values;
            forall k | 0 <= k < |at| :: at[k] <= n && now[k] == s[at[k]] && now[k].outbound
  {
  }

  /** A larger number in front of falling ones. */
  lemma InFront(x: nat, rest: seq<nat>)
    requires (forall k | 0 <= k < |rest| :: rest[k] < x) && forall j, k | 0 <= j < k < |rest| :: rest[j] > rest[k]
    ensures forall j, k | 0 <= j < k < |[x] + rest| :: ([x] + rest)[j] > ([x] + rest)[k]
    ensures forall p {:trigger p in [x] + rest} :: p in [x] + rest <==> p == x || p in rest
  {
  }

  /** A handler that is asked to write, or to flush. */
  datatype Visit = Visit(handler: ChannelHandler, flush: bool)

  function Visits(s: seq<ChannelHandler>, flush: bool): seq<Visit> {
    seq(|s|, i requires 0 <= i < |s| => Visit(s[i], flush))
  }

  function WrittenThenFlushed(s: seq<ChannelHandler>): seq<Visit> { Visits(s, false) + Visits(s, true) }

  datatype Command = AddAll(handlers: seq<ChannelHandler>, position: Position) | Remove(handler: ChannelHandler)

  function AfterAll(s: seq<ChannelHandler>, commands: seq<Command>): seq<ChannelHandler> {
    if commands == [] then s
    else
      var before := AfterAll(s, commands[..|commands| - 1]);
      match commands[|commands| - 1]
      case AddAll(handlers, position) => AddedAll(before, InOrder(handlers, position), position)
      case Remove(handler) => Removed(before, handler)
  }

  // ----- several handlers at once

  /** What adding one after the other before the same handler makes of a list that contains it. */
  function Interleaved(hs: seq<ChannelHandler>, other: ChannelHandler): seq<ChannelHandler> {
    if hs == [] then []
    else if hs[0] == other then Interleaved(hs[1..], other) + [other]
    else [hs[0]] + Interleaved(hs[1..], other)
  }

  /** After the first `other` there is nothing else. */
  predicate OnlyAtEnd(hs: seq<ChannelHandler>, other: ChannelHandler) {
    forall j, k | 0 <= j < k < |hs| && hs[j] == other :: hs[k] == other
  }

  lemma {:induction false} InterleavedSame(hs: seq<ChannelHandler>, other: ChannelHandler)
    ensures |Interleaved(hs, other)| == |hs|
    ensures Interleaved(hs, other) == hs <==> OnlyAtEnd(hs, other)
    ensures hs != [] && Interleaved(hs, other)[0] == other ==> forall k | 0 <= k < |hs| :: hs[k] == other
  {
    if hs != [] {
      InterleavedSame(hs[1..], other);
      if hs[0] == other {
        var rest := Interleaved(hs[1..], other);
        if OnlyAtEnd(hs, other) {
          assert forall k | 0 <= k < |hs[1..]| :: hs[1..][k] == other;
          assert rest == hs[1..];
          assert forall k | 0 <= k < |hs| :: (rest + [other])[k] == hs[k];
        }
      } else {
        assert forall k | 0 < k < |hs| :: hs[k] == hs[1..][k - 1];
      }
    }
  }

  lemma AddedBefore(a: seq<ChannelHandler>, b: seq<ChannelHandler>, h: ChannelHandler, other: ChannelHandler)
    requires other !in a && b != [] && b[0] == other
    ensures IndexOf(a + b, other) == |a| && Added(a + b, h, Before(other)) == a + [h] + b
  {
    assert (a + b)[..|a|] == a && (a + b)[|a|..] == b;
    IndexIs(a + b, other, |a|);
  }

  lemma {:induction false} BeforeInterleaves(a: seq<ChannelHandler>, b: seq<ChannelHandler>, hs: seq<ChannelHandler>, other: ChannelHandler)
    requires other !in a && b != [] && b[0] == other
    ensures AddedAll(a + b, hs, Before(other)) == a + Interleaved(hs, other) + b
    decreases |hs|
  {
    hide IndexOf, Added;
    if hs == [] {
      assert a + [] + b == a + b;
    } else {
      AddedBefore(a, b, hs[0], other);
      var rest := Interleaved(hs[1..], other);
      if hs[0] == other {
        assert a + [hs[0]] + b == a + ([other] + b);
        BeforeInterleaves(a, [other] + b, hs[1..], other);
        assert a + rest + ([other] + b) == a + (rest + [other]) + b;
      } else {
        BeforeInterleaves(a + [hs[0]], b, hs[1..], other);
        assert a + [hs[0]] + rest + b == a + ([hs[0]] + rest) + b;
      }
    }
  }

  lemma AddedAfter(a: seq<ChannelHandler>, b: seq<ChannelHandler>, h: ChannelHandler, other: ChannelHandler)
    requires other !in a
    ensures Found(a + [other] + b, After(other))
    ensures Added(a + [other] + b, h, After(other)) == a + [other] + ([h] + b)
  {
    var s := a + [other] + b;
    assert s[..|a|] == a && s[|a|] == other;
    IndexIs(s, other, |a|);
    assert s[..|a| + 1] == a + [other] && s[|a| + 1..] == b;
  }

  lemma {:induction false} AfterReverses(a: seq<ChannelHandler>, b: seq<ChannelHandler>, hs: seq<ChannelHandler>, other: ChannelHandler)
    requires other !in a
    ensures AddedAll(a + [other] + b, Reversed(hs), After(other)) == a + [other] + (hs + b)
    decreases |hs|
  {
    hide IndexOf, Added;
    var s := a + [other] + b;
    if hs == [] {
      assert hs + b == b;
    } else {
      AddedAfter(a, b, hs[0], other);
      AddedConcat(s, Reversed(hs[1..]), hs[0], After(other));
      AfterReverses(a, b, hs[1..], other);
      AddedAfter(a, hs[1..] + b, hs[0], other);
      assert [hs[0]] + (hs[1..] + b) == hs + b;
    }
  }

  /** One more at the end. */
  lemma {:induction false} AddedConcat(s: seq<ChannelHandler>, hs: seq<ChannelHandler>, h: ChannelHandler, position: Position)
    requires Found(s, position)
    ensures Found(AddedAll(s, hs, position), position)
    ensures AddedAll(s, hs + [h], position) == Added(AddedAll(s, hs, position), h, position)
    decreases |hs|
  {
    if hs == [] {
      assert [h][1..] == [];
      FoundKept(s, h, position);
    } else {
      FoundKept(s, hs[0], position);
      assert (hs + [h])[1..] == hs[1..] + [h];
      AddedConcat(Added(s, hs[0], position), hs[1..], h, position);
    }
  }

  lemma AddedFirst(s: seq<ChannelHandler>, h: ChannelHandler)
    ensures Added(s, h, First) == [h] + s
  {
  }

  lemma {:induction false} FirstReverses(s: seq<ChannelHandler>, hs: seq<ChannelHandler>)
    ensures AddedAll(s, Reversed(hs), First) == hs + s
    decreases |hs|
  {
    hide Added, AddedAll;
    NothingAdded(s, First);
    if hs == [] {
      assert [] + s == s;
    } else {
      AddedConcat(s, Reversed(hs[1..]), hs[0], First);
      FirstReverses(s, hs[1..]);
      AddedFirst(hs[1..] + s, hs[0]);
      assert [hs[0]] + (hs[1..] + s) == hs + s;
    }
  }

  lemma {:induction false} LastAppends(s: seq<ChannelHandler>, hs: seq<ChannelHandler>)
    ensures AddedAll(s, hs, Last) == s + hs
    decreases |hs|
  {
    if hs != [] {
      LastAppends(s + [hs[0]], hs[1..]);
      assert InsertAt(s, |s|, hs[0]) == s + [hs[0]];
    }
  }

  /** Where the block of handlers goes. */
  function BlockAt(s: seq<ChannelHandler>, position: Position): (i: nat)
    requires Found(s, position)
    ensures i <= |s|
  {
    match position
    case First => 0
    case Last => |s|
    case Before(other) => IndexOf(s, other)
    case After(other) => IndexOf(s, other) + 1
  }

  /** The handlers go in as one block in the order given, at every position but one: before a
      handler that is itself among them, they do so exactly when nothing else comes after it. */
  lemma BlockInserted(s: seq<ChannelHandler>, hs: seq<ChannelHandler>, position: Position)
    requires Found(s, position)
    ensures var i := BlockAt(s, position);
            AddedAll(s, InOrder(hs, position), position) == s[..i] + hs + s[i..] <==>
              (position.Before? ==> OnlyAtEnd(hs, position.handler))
  {
    hide AddedAll, Reversed, OnlyAtEnd;
    match position
    case First =>
      FirstReverses(s, hs);
      assert s[..0] + hs + s[0..] == hs + s;
    case Last =>
      LastAppends(s, hs);
      assert s[..|s|] + hs + s[|s|..] == s + hs;
    case After(other) => BlockAfter(s, hs, other);
    case Before(other) => BlockBefore(s, hs, other);
  }

  lemma BlockAfter(s: seq<ChannelHandler>, hs: seq<ChannelHandler>, other: ChannelHandler)
    requires other in s
    ensures var i := IndexOf(s, other) + 1;
            AddedAll(s, Reversed(hs), After(other)) == s[..i] + hs + s[i..]
  {
    hide AddedAll, Reversed;
    var i := IndexOf(s, other);
    var a, b := s[..i], s[i + 1..];
    assert s == a + [other] + b && s[..i + 1] == a + [other];
    AfterReverses(a, b, hs, other);
    assert a + [other] + (hs + b) == a + [other] + hs + b;
  }

  lemma BlockBefore(s: seq<ChannelHandler>, hs: seq<ChannelHandler>, other: ChannelHandler)
    requires other in s
    ensures var i := IndexOf(s, other);
            AddedAll(s, hs, Before(other)) == s[..i] + hs + s[i..] <==> OnlyAtEnd(hs, other)
  {
    hide AddedAll, Interleaved, OnlyAtEnd;
    var i := IndexOf(s, other);
    assert s == s[..i] + s[i..];
    BeforeInterleaves(s[..i], s[i..], hs, other);
    InterleavedSame(hs, other);
    SameMiddle(s[..i], Interleaved(hs, other), hs, s[i..]);
  }

  /** The order is not kept when a handler is added before itself together with another one. */
  lemma BlockTornApart(x: ChannelHandler, y: ChannelHandler)
    requires x != y
    ensures AddedAll([x], InOrder([x, y], Before(x)), Before(x)) == [y, x, x] != [x, y, x]
  {
    assert [x] == [] + [x];
    BeforeInterleaves([], [x], [x, y], x);
    assert [x, y][1..] == [y] && [y][1..] == [];
    assert Interleaved([y], x) == [y] + Interleaved([], x) == [y];
    assert Interleaved([x, y], x) == [y] + [x];
  }

  lemma SameMiddle(a: seq<ChannelHandler>, b: seq<ChannelHandler>, c: seq<ChannelHandler>, d: seq<ChannelHandler>)
    requires |b| == |c|
    ensures a + b + d == a + c + d <==> b == c
  {
    if a + b + d == a + c + d {
      assert (a + b + d)[|a|..|a| + |b|] == b && (a + c + d)[|a|..|a| + |c|] == c;
    }
  }

  lemma NotFoundStays(s: seq<ChannelHandler>, hs: seq<ChannelHandler>, position: Position)
    requires !Found(s, position)
    ensures AddedAll(s, hs, position) == s
  {
  }

  lemma NothingAdded(s: seq<ChannelHandler>, position: Position)
    ensures AddedAll(s, [], position) == s
  {
  }

  lemma InOrderLength(handlers: seq<ChannelHandler>, position: Position)
    ensures |InOrder(handlers, position)| == |handlers|
  {
    ReversedLength(handlers);
  }

  lemma {:induction false} ReversedLength(s: seq<ChannelHandler>)
    ensures |Reversed(s)| == |s|
  {
    if s != [] {
      ReversedLength(s[1..]);
    }
  }

  lemma IndexIs(s: seq<ChannelHandler>, h: ChannelHandler, i: nat)
    requires i < |s| && s[i] == h && h !in s[..i]
    ensures IndexOf(s, h) == i
  {
  }

  function Between(list: Contexts): (r: seq<ChannelHandler>)
    ensures |r| == if |list| < 2 then 0 else |list| - 2
    ensures forall k | 0 <= k < |r| :: r[k] == list[k + 1].handler
  {
    if |list| < 2 then [] else Handlers(list)[1..|list| - 1]
  }

  lemma UsersInserted(list: Contexts, n: nat, c: ChannelHandlerContext)
    requires 0 < n < |list|
    ensures Between(Inserted(list, n, c)) == InsertAt(Between(list), n - 1, c.handler)
  {
    var after, expected := Between(Inserted(list, n, c)), InsertAt(Between(list), n - 1, c.handler);
    assert |after| == |expected|;
    assert forall k | 0 <= k < |after| :: after[k] == expected[k];
  }

  lemma SecondOf(list: Contexts)
    requires Linked(list) && list != []
    ensures list[0].next == if |list| == 1 then null else list[1]
  {
    assert list[0].next == At(list, 1);
  }

  lemma HandlersSnoc(all: Contexts, k: nat)
    requires 1 <= k < |all|
    ensures Handlers(all[1..k + 1]) == Handlers(all[1..k]) + [all[k].handler]
    ensures [all[0]] + all[k..][1..] == [all[0]] + all[k + 1..]
  {
  }

  lemma EndsInserted(list: Contexts, n: nat, c: ChannelHandlerContext)
    requires 0 < n < |list|
    ensures var r := Inserted(list, n, c);
            |r| == |list| + 1 && r[0] == list[0] && r[|r| - 1] == list[|list| - 1]
    ensures forall d | d in Inserted(list, n, c) :: d in list || d == c
  {
  }

  lemma NotLeft(list: Contexts, i: nat)
    requires Linked(list) && i < |list|
    ensures !Left(list[i])
  {
    assert !list[i].removeHandlerInvoked;
  }

  lemma EndsWithout(list: Contexts, n: nat)
    requires 0 < n < |list| - 1
    ensures var r := Without(list, n);
            |r| == |list| - 1 && r[0] == list[0] && r[|r| - 1] == list[|list| - 1]
    ensures forall c | c in Without(list, n) :: c in list
  {
  }

  lemma UsersWithout(list: Contexts, n: nat)
    requires 0 < n < |list| - 1
    ensures Between(Without(list, n)) == Between(list)[..n - 1] + Between(list)[n..]
  {
  }

  class ChannelPipeline {
    var head: ChannelHandlerContext?
    var tail: ChannelHandlerContext?
    var destroyed: bool
    /** The handlers that were told that they are removed, in this order. */
    var removed: seq<ChannelHandler>
    ghost var contexts: Contexts

    ghost predicate Valid()
      reads this, contexts
    {
      if destroyed then head == null && tail == null && contexts == []
      else
        && |contexts| >= 2 && Linked(contexts)
        && head == contexts[0] && tail == contexts[|contexts| - 1]
    }

    ghost function Members(): set<ChannelHandlerContext>
      reads this
    {
      set c | c in contexts
    }

    /** The handlers between the head and the tail. */
    ghost function Users(): seq<ChannelHandler>
      reads this
    {
      Between(contexts)
    }

    constructor (headHandler: ChannelHandler, tailHandler: ChannelHandler)
      ensures Valid() && !destroyed && Users() == [] && removed == [] && fresh(contexts)
      ensures contexts[0].handler == headHandler && contexts[1].handler == tailHandler
    {
      var h := new ChannelHandlerContext(headHandler);
      var t := new ChannelHandlerContext(tailHandler);
      head, tail, destroyed, removed, contexts := h, t, false, [], [h, t];
      new;
      head.next := tail;
      tail.prev := head;
    }

    /** `removeHandlerFromPipeline`: unlink the context and tell its handler. A context that has left
        already has no links, and was told: removing it again changes nothing. */
    method RemoveHandlerFromPipeline(context: ChannelHandlerContext, ghost list: Contexts, ghost i: nat)
      requires Linked(list)
      requires if Left(context) then context !in list else i < |list| && list[i] == context
      modifies this`removed, list, context
      ensures Left(context)
      ensures old(Left(context)) ==> Linked(list) && removed == old(removed)
      ensures !old(Left(context)) ==> Linked(Without(list, i)) && removed == old(removed) + [context.handler]
    {
      ghost var again := Left(context);
      Unlink(context);
      InvokeHandlerRemoved(context);
      context.next := null;
      context.prev := null;
      if !again {
        ghost var l := Without(list, i);
        forall k | 0 <= k < |l|
          ensures l[k].next == At(l, k + 1) && l[k].prev == At(l, k - 1) && !l[k].removeHandlerInvoked
        {
          if k < i {
            assert old(list[k].next) == At(list, k + 1) && old(list[k].prev) == At(list, k - 1);
          } else {
            assert old(list[k + 1].next) == At(list, k + 2) && old(list[k + 1].prev) == At(list, k);
          }
        }
      }
    }

    method InvokeHandlerRemoved(context: ChannelHandlerContext)
      modifies this`removed, context`removeHandlerInvoked
      ensures context.removeHandlerInvoked
      ensures removed == if old(context.removeHandlerInvoked) then old(removed) else old(removed) + [context.handler]
    {
      if !context.removeHandlerInvoked {
        context.removeHandlerInvoked := true;
        removed := removed + [context.handler];
      }
    }

    /** `contextForPredicate0`, for the context of a handler: the first one between head and tail. */
    method ContextFor(h: ChannelHandler) returns (c: ChannelHandlerContext?, ghost i: nat)
      requires Valid()
      ensures c == null ==> h !in Users()
      ensures c != null ==> h in Users() && i == 1 + IndexOf(Users(), h) && i < |contexts| - 1 && contexts[i] == c
      ensures c != null ==> c.handler == h
    {
      i := 1;
      if head == null {
        return null, 0;
      }
      c := head.next;
      while c != null && c != tail
        invariant 1 <= i < |contexts| && c == contexts[i]
        invariant h !in Users()[..i - 1]
        decreases |contexts| - i
      {
        if c.handler == h {
          IndexIs(Users(), h, i - 1);
          return;
        }
        c := c.next;
        i := i + 1;
      }
      c := null;
    }

    /** Link a new context after the one at position i, and record it. */
    method PutAfter(h: ChannelHandler, existing: ChannelHandlerContext, ghost i: nat)
      requires Valid() && !destroyed && i < |contexts| - 1 && contexts[i] == existing
      modifies this`contexts, Members()`next, Members()`prev
      ensures Valid() && Users() == InsertAt(old(Users()), i, h)
      ensures fresh(Members() - old(Members()))
      ensures contexts[0] == old(contexts[0]) && contexts[|contexts| - 1] == old(contexts[|contexts| - 1])
    {
      hide Linked, Inserted, Between;
      var context := new ChannelHandlerContext(h);
      InsertAfter(context, existing, contexts, i);
      UsersInserted(contexts, i + 1, context);
      EndsInserted(contexts, i + 1, context);
      contexts := Inserted(contexts, i + 1, context);
    }

    method PutBefore(h: ChannelHandler, existing: ChannelHandlerContext, ghost i: nat)
      requires Valid() && !destroyed && 0 < i < |contexts| && contexts[i] == existing
      modifies this`contexts, Members()`next, Members()`prev
      ensures Valid() && Users() == InsertAt(old(Users()), i - 1, h)
      ensures fresh(Members() - old(Members()))
      ensures contexts[0] == old(contexts[0]) && contexts[|contexts| - 1] == old(contexts[|contexts| - 1])
    {
      hide Linked, Inserted, Between;
      var context := new ChannelHandlerContext(h);
      InsertBefore(context, existing, contexts, i);
      UsersInserted(contexts, i, context);
      EndsInserted(contexts, i, context);
      contexts := Inserted(contexts, i, context);
    }

    /** `_add`. */
    method Add(h: ChannelHandler, position: Position) returns (result: AddResult)
      requires Valid()
      modifies this`contexts, Members()`next, Members()`prev
      ensures Valid() && fresh(Members() - old(Members()))
      ensures result ==
              if destroyed then IoOnClosedChannel else if Found(old(Users()), position) then Success else NotFound
      ensures Users() == if result.Success? then Added(old(Users()), h, position) else old(Users())
      ensures !destroyed ==>
        contexts != [] && contexts[0] == old(contexts[0]) && contexts[|contexts| - 1] == old(contexts[|contexts| - 1])
    {
      hide Linked, IndexOf, Between, InsertAt;
      if destroyed {
        return IoOnClosedChannel;
      }
      match position {
      case First =>
        PutAfter(h, head, 0);
      case Last =>
        ghost var last := |contexts| - 1;
        assert |Between(contexts)| == |contexts| - 2;
        PutBefore(h, tail, last);
      case Before(other) =>
        var c;
        ghost var i;
        c, i := ContextFor(other);
        if c == null {
          return NotFound;
        }
        PutBefore(h, c, i);
      case After(other) =>
        var c;
        ghost var i;
        c, i := ContextFor(other);
        if c == null {
          return NotFound;
        }
        PutAfter(h, c, i);
      }
      result := Success;
    }

    /** `addHandlers`: one after the other, in reverse where each goes right after the same place. */
    method AddHandlers(handlers: seq<ChannelHandler>, position: Position) returns (result: AddResult)
      requires Valid()
      modifies this`contexts, Members()`next, Members()`prev
      ensures Valid() && fresh(Members() - old(Members()))
      ensures result ==
              if handlers == [] then Success
              else if destroyed then IoOnClosedChannel
              else if Found(old(Users()), position) then Success else NotFound
      ensures Users() == if destroyed then old(Users()) else AddedAll(old(Users()), InOrder(handlers, position), position)
    {
      hide Added, Found, Linked, AddedAll, InOrder, Reversed, Between, IndexOf, ChannelPipeline.Valid;
      var hs := InOrder(handlers, position);
      ghost var users := Users();
      InOrderLength(handlers, position);
      result := Success;
      var k := 0;
      assert hs[0..] == hs;
      while k < |hs|
        invariant k <= |hs| && Valid() && fresh(Members() - old(Members()))
        invariant result.Success? && (destroyed ==> k == 0 && Users() == users)
        invariant Found(Users(), position) == Found(users, position)
        invariant k > 0 ==> Found(users, position)
        invariant !destroyed ==> AddedAll(Users(), hs[k..], position) == AddedAll(users, hs, position)
      {
        if Found(Users(), position) {
          AddedAllStep(Users(), hs, k, position);
        } else {
          NotFoundStays(Users(), hs[k..], position);
        }
        result := Add(hs[k], position);
        if !result.Success? {
          return;
        }
        k := k + 1;
      }
      assert hs[|hs|..] == [];
      NothingAdded(Users(), position);
    }

    /** `removeHandler`, of a handler that leaves as soon as it is asked to. */
    method RemoveHandler(h: ChannelHandler) returns (found: bool)
      requires Valid()
      modifies this`removed, this`contexts, Members()
      ensures Valid() && Members() <= old(Members())
      ensures found == (h in old(Users()))
      ensures Users() == Removed(old(Users()), h)
      ensures removed == if found then old(removed) + [h] else old(removed)
    {
      hide ChannelPipeline.Valid, Between, IndexOf;
      var c;
      ghost var i;
      c, i := ContextFor(h);
      if c == null {
        return false;
      }
      Leave(c, i);
      found := true;
    }

    /** A context between head and tail leaves. */
    method Leave(c: ChannelHandlerContext, ghost i: nat)
      requires Valid() && 0 < i < |contexts| - 1 && contexts[i] == c
      modifies this`removed, this`contexts, Members()
      ensures Valid() && Members() <= old(Members())
      ensures Users() == old(Users())[..i - 1] + old(Users())[i..]
      ensures removed == old(removed) + [c.handler]
    {
      hide Linked, Between, Without;
      NotLeft(contexts, i);
      RemoveHandlerFromPipeline(c, contexts, i);
      UsersWithout(contexts, i);
      EndsWithout(contexts, i);
      contexts := Without(contexts, i);
    }

    /** The context after the head leaves. */
    method RemoveSecond()
      requires Linked(contexts) && |contexts| >= 2 && head == contexts[0]
      modifies this`removed, this`contexts, Members()
      ensures Linked(contexts) && contexts == [old(contexts)[0]] + old(contexts)[2..]
      ensures Left(old(contexts)[1]) && removed == old(removed) + [old(contexts)[1].handler]
    {
      SecondOf(contexts);
      NotLeft(contexts, 1);
      RemoveHandlerFromPipeline(head.next, contexts, 1);
      assert Without(contexts, 1) == [contexts[0]] + contexts[2..];
      contexts := Without(contexts, 1);
    }

    /** The loop of `removeHandlers`: all but the head leave. */
    method RemoveAfterHead()
      requires Linked(contexts) && contexts != [] && head == contexts[0]
      modifies this`removed, this`contexts, Members()
      ensures contexts == old(contexts)[..1] && head == contexts[0] && Linked(contexts)
      ensures forall j | 1 <= j < |old(contexts)| :: Left(old(contexts)[j])
      ensures removed == old(removed) + Handlers(old(contexts)[1..])
    {
      ghost var all, k := contexts, 1;
      while head.next != null
        invariant 1 <= k <= |all| && head != null && head == all[0] == old(head)
        invariant contexts == [all[0]] + all[k..] && Linked(contexts)
        invariant forall j | 1 <= j < k :: Left(all[j])
        invariant removed == old(removed) + Handlers(all[1..k])
        decreases |all| - k
      {
        hide Linked, Handlers, Left;
        SecondOf(contexts);
        RemoveSecond();
        HandlersSnoc(all, k);
        k := k + 1;
      }
      SecondOf(contexts);
      assert all[1..k] == all[1..];
    }

    /** `removeHandlers`: every context leaves, the head last, and each handler is told so once. */
    method RemoveHandlers()
      requires Valid()
      modifies this, Members()
      ensures Valid() && destroyed
      ensures forall c | c in old(contexts) :: Left(c)
      ensures old(contexts) == [] ==> removed == old(removed)
      ensures old(contexts) != [] ==>
                removed == old(removed) + Handlers(old(contexts)[1..]) + [old(contexts)[0].handler]
    {
      hide Linked, Handlers;
      if head != null {
        RemoveAfterHead();
        NotLeft(contexts, 0);
        RemoveHandlerFromPipeline(head, contexts, 0);
      }
      head := null;
      tail := null;
      contexts := [];
      destroyed := true;
    }

    /** An inbound event: each inbound handler sees it and forwards it to the next context; the
        others are passed over. `visited` are the handlers that see it. */
    method InvokeInbound(c: ChannelHandlerContext, ghost i: nat) returns (visited: seq<ChannelHandler>)
      requires Valid() && i < |contexts| && contexts[i] == c
      ensures visited == Inbound(Handlers(contexts)[i..])
      decreases |contexts| - i
    {
      hide ChannelPipeline.Valid, Linked;
      ghost var hs := Handlers(contexts);
      NextOf(i);
      var rest := [];
      if c.next != null {
        rest := InvokeInbound(c.next, i + 1);
      }
      assert hs[i..] == [c.handler] + hs[i + 1..];
      visited := if c.handler.inbound then [c.handler] + rest else rest;
    }

    /** It begins after the head, and is seen by exactly the inbound handlers, in the order of their positions. */
    method FireInbound() returns (visited: seq<ChannelHandler>, ghost at: seq<nat>)
      requires Valid()
      ensures visited == if destroyed then [] else Inbound(Handlers(contexts)[1..])
      ensures |at| == |visited| && forall k | 0 <= k < |at| ::
        1 <= at[k] < |contexts| && visited[k] == contexts[at[k]].handler && visited[k].inbound
      ensures forall j, k | 0 <= j < k < |at| :: at[j] < at[k]
      ensures forall p {:trigger p in at} | 1 <= p < |contexts| && contexts[p].handler.inbound :: p in at
    {
      visited, at := [], [];
      if head != null {
        NextOf(0);
        if head.next != null {
          visited := InvokeInbound(head.next, 1);
          at := InboundAt(Handlers(contexts), 1);
        }
      }
    }

    /** An outbound event goes the other way. */
    method InvokeOutbound(c: ChannelHandlerContext, ghost i: nat) returns (visited: seq<ChannelHandler>)
      requires Valid() && i < |contexts| && contexts[i] == c
      ensures visited == Outbound(Handlers(contexts)[..i + 1])
      decreases i
    {
      hide ChannelPipeline.Valid, Linked;
      ghost var hs := Handlers(contexts);
      NextOf(i);
      var rest := [];
      if c.prev != null {
        rest := InvokeOutbound(c.prev, i - 1);
      }
      assert hs[..i + 1] == hs[..i] + [c.handler];
      visited := if c.handler.outbound then [c.handler] + rest else rest;
    }

    /** It begins before the tail, and is seen by exactly the outbound handlers, from the last position to the first. */
    method FireOutbound() returns (visited: seq<ChannelHandler>, ghost at: seq<nat>)
      requires Valid()
      ensures visited == if destroyed then [] else Outbound(Handlers(contexts)[..|contexts| - 1])
      ensures |at| == |visited| && forall k | 0 <= k < |at| ::
        at[k] < |contexts| - 1 && visited[k] == contexts[at[k]].handler && visited[k].outbound
      ensures forall j, k | 0 <= j < k < |at| :: at[j] > at[k]
      ensures forall p {:trigger p in at} | 0 <= p < |contexts| - 1 && contexts[p].handler.outbound :: p in at
    {
      visited, at := [], [];
      if tail != null {
        ghost var last := |contexts| - 1;
        NextOf(last);
        if tail.prev != null {
          visited := InvokeOutbound(tail.prev, last - 1);
          at := OutboundAt(Handlers(contexts), last);
        }
      }
    }

    /** A write and a flush together. The first outbound handler is asked to write, which goes on to all the
        others before it, and only then to flush. */
    method InvokeWriteAndFlush(c: ChannelHandlerContext, ghost i: nat) returns (visits: seq<Visit>)
      requires Valid() && i < |contexts| && contexts[i] == c
      ensures visits == WrittenThenFlushed(Outbound(Handlers(contexts)[..i + 1]))
      decreases i
    {
      hide ChannelPipeline.Valid, Linked;
      ghost var hs := Handlers(contexts);
      NextOf(i);
      assert hs[..i + 1] == hs[..i] + [c.handler];
      if c.handler.outbound {
        var written, flushed := [], [];
        if c.prev != null {
          written := InvokeOutbound(c.prev, i - 1);
          flushed := InvokeOutbound(c.prev, i - 1);
        }
        visits := Visits([c.handler] + written, false) + Visits([c.handler] + flushed, true);
      } else if c.prev != null {
        visits := InvokeWriteAndFlush(c.prev, i - 1);
      } else {
        visits := [];
      }
    }

    /** Every outbound handler sees the write before any of them sees the flush. */
    method FireWriteAndFlush() returns (visits: seq<Visit>, ghost at: seq<nat>)
      requires Valid()
      ensures visits == if destroyed then [] else WrittenThenFlushed(Outbound(Handlers(contexts)[..|contexts| - 1]))
      ensures |visits| == 2 * |at| && forall k | 0 <= k < |at| ::
        && at[k] < |contexts| - 1 && contexts[at[k]].handler.outbound
        && visits[k] == Visit(contexts[at[k]].handler, false) && visits[|at| + k] == Visit(contexts[at[k]].handler, true)
      ensures forall j, k | 0 <= j < k < |at| :: at[j] > at[k]
      ensures forall p {:trigger p in at} | 0 <= p < |contexts| - 1 && contexts[p].handler.outbound :: p in at
    {
      visits, at := [], [];
      if tail != null {
        ghost var last := |contexts| - 1;
        NextOf(last);
        if tail.prev != null {
          visits := InvokeWriteAndFlush(tail.prev, last - 1);
          at := OutboundAt(Handlers(contexts), last);
        }
      }
    }

    lemma NextOf(i: nat)
      requires Valid() && i < |contexts|
      ensures contexts[i].next == At(contexts, i + 1) && contexts[i].prev == At(contexts, i - 1)
    {
    }

    /** A run of adds and removes: the links always are the list that the operations describe. */
    method Run(commands: seq<Command>)
      requires Valid() && !destroyed
      modifies this`removed, this`contexts, Members()
      ensures Valid() && !destroyed && fresh(Members() - old(Members()))
      ensures Users() == AfterAll(old(Users()), commands)
    {
      hide ChannelPipeline.Valid, Between, Added, AddedAll, Removed;
      ghost var users := Users();
      var k := 0;
      assert commands[..|commands|] == commands;
      while k < |commands|
        invariant k <= |commands| && Valid() && !destroyed && fresh(Members() - old(Members()))
        invariant Users() == AfterAll(users, commands[..k])
      {
        assert commands[..k + 1][..k] == commands[..k];
        match commands[k] {
          case AddAll(handlers, position) =>
            var _ := AddHandlers(handlers, position);
          case Remove(handler) =>
            var _ := RemoveHandler(handler);
        }
        k := k + 1;
      }
    }
  }
}
