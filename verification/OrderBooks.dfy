/** The limit order book (core/OrderBook.cpp): its operations as functions on values, each returning the new book,
    the execution flags and the events it caused. */
module OrderBooks {
  import opened Orders
  import opened OrderQueues
  import opened Matching

  // ----- Execution flags -----

  type ExecFlags = bv8

  const NO_FLAGS: ExecFlags := 0
  const ACCEPTED: ExecFlags := 1
  const PARTIALLY_FILLED: ExecFlags := 2
  const FULLY_FILLED: ExecFlags := 4
  const CANCELLED: ExecFlags := 8
  const REJECTED: ExecFlags := 16

  predicate HasFlag(flags: ExecFlags, f: ExecFlags) {
    flags & f != NO_FLAGS
  }

  predicate FlagsAreValid(f: ExecFlags) {
    if HasFlag(f, REJECTED) then f == REJECTED
    else !(HasFlag(f, PARTIALLY_FILLED) && HasFlag(f, FULLY_FILLED)) && !(HasFlag(f, CANCELLED) && HasFlag(f, ACCEPTED))
  }

  // ----- State -----

  /** The two comparators of a book. */
  datatype Rules = Rules(buy: Comparator, sell: Comparator) {
    function For(side: Side): Comparator {
      if side == Buy then buy else sell
    }

    ghost predicate Ok() {
      PriceFirst(Buy, buy) && PriceFirst(Sell, sell)
    }
  }

  /** `volumes` holds a 32-bit signed total for each price and side that was ever touched. */
  datatype Book = Book(buys: Queue, sells: Queue, volumes: map<(uint32, Side), int32>) {
    function For(side: Side): Queue {
      if side == Buy then buys else sells
    }

    function With(side: Side, q: Queue): Book {
      if side == Buy then this.(buys := q) else this.(sells := q)
    }

    function VolumeAt(price: uint32, side: Side): int32 {
      if (price, side) in volumes then volumes[(price, side)] else 0
    }
  }

  const EmptyBook := Book(EmptyQueue, EmptyQueue, map[])

  /** What an operation did, in order. */
  datatype Event =
    | Accepted(order: Order)                            // a new order was accepted
    | Rested(order: Order)                              // it rested whole
    | Executed(taker: Order, maker: Order, volume: nat) // it traded with a resting order
    | RestedResidue(order: Order)                       // what was left of it after trading rested
    | Cancelled(order: Order)                           // a resting order was taken out

  datatype Outcome = Outcome(book: Book, flags: ExecFlags, events: seq<Event>)

  ghost predicate Tradable(b: Book) {
    AllValid(b.buys.items) && AllValid(b.sells.items)
  }

  // ----- Operations -----

  predicate CanCross(b: Book, incoming: Order) {
    var opposite := b.For(incoming.side.Opposite());
    opposite.items != [] && PriceCrosses(incoming, opposite.items[0])
  }

  function AddToLevel(b: Book, price: uint32, side: Side, delta: int): Book {
    b.(volumes := b.volumes[(price, side) := Wrap32(b.VolumeAt(price, side) + delta)])
  }

  function Executions(taker: Order, trades: seq<Trade>): seq<Event> {
    if trades == [] then []
    else [Executed(taker, trades[0].maker, trades[0].volume)] + Executions(taker, trades[1..])
  }

  function PushOwn(R: Rules, b: Book, o: Order): (r: Book)
    requires Tradable(b)
    ensures Tradable(r)
  {
    InsertMembers(R.For(o.side), b.For(o.side).items, o);
    b.With(o.side, Push(R.For(o.side), b.For(o.side), o))
  }

  function MatchOrder(R: Rules, b: Book, incoming: Order): (r: Outcome)
    requires Tradable(b)
    ensures Tradable(r.book)
  {
    if !incoming.IsValid() then
      Outcome(b, REJECTED, [])
    else
      var other := incoming.side.Opposite();
      var m := Match(R.For(other), incoming, b.For(other));
      var traded := b.With(other, m.queue);
      var events := Executions(incoming, m.trades);
      if m.incoming.volume == 0 then Outcome(traded, FULLY_FILLED, events)
      else Outcome(PushOwn(R, traded, m.incoming), PARTIALLY_FILLED, events + [RestedResidue(m.incoming)])
  }

  function NewOrder(R: Rules, b: Book, order: Order): (r: Outcome)
    requires Tradable(b)
    ensures Tradable(r.book)
  {
    if !order.IsValid() then
      Outcome(b, REJECTED, [])
    else if CanCross(b, order) then
      var m := MatchOrder(R, b, order);
      if HasFlag(m.flags, REJECTED) then Outcome(m.book, REJECTED, m.events)
      else Outcome(m.book, m.flags | ACCEPTED, [Accepted(order)] + m.events)
    else
      Outcome(AddToLevel(PushOwn(R, b, order), order.price, order.side, order.volume),
              NO_FLAGS | ACCEPTED, [Accepted(order), Rested(order)])
  }

  function CancelFrom(b: Book, side: Side, id: uint64): (r: Outcome)
    requires Tradable(b) && id in b.For(side).index
    ensures Tradable(r.book)
  {
    var order := b.For(side).index[id];
    EraseMembers(b.For(side).items, order);
    Outcome(AddToLevel(b.With(side, Remove(b.For(side), id)), order.price, side, 0 - order.volume),
            CANCELLED, [Cancelled(order)])
  }

  function CancelOrder(b: Book, id: uint64): (r: Outcome)
    requires Tradable(b)
    ensures Tradable(r.book)
  {
    if id in b.buys.index then CancelFrom(b, Buy, id)
    else if id in b.sells.index then CancelFrom(b, Sell, id)
    else Outcome(b, REJECTED, [])
  }

  /** The replacement order: same client id, client and side, with a timestamp from a new draw. */
  function Replacement(order: Order, price: uint32, volume: uint32, draw: uint64): Order {
    NewOrderValue(Unpack(order.id).0, price, volume, if order.side == Buy then Buy else Sell, order.client, draw)
  }

  function ModifyOrder(R: Rules, b: Book, id: uint64, price: uint32, volume: uint32, draw: uint64): (r: Outcome)
    requires Tradable(b)
    ensures Tradable(r.book)
  {
    if id !in b.buys.index then
      Outcome(b, REJECTED, [])
    else
      var order := b.buys.index[id];
      var c := CancelOrder(b, id);
      if HasFlag(c.flags, REJECTED) then
        c
      else
        var n := NewOrder(R, c.book, Replacement(order, price, volume, draw));
        Outcome(n.book, c.flags | n.flags, c.events + n.events)
  }

  /** A modification of a resting buy order is its cancellation followed by the entry of its replacement. */
  lemma ModifyOutcome(R: Rules, b: Book, id: uint64, price: uint32, volume: uint32, draw: uint64)
    requires Tradable(b) && id in b.buys.index
    ensures var c := CancelOrder(b, id);
      var n := NewOrder(R, c.book, Replacement(b.buys.index[id], price, volume, draw));
      ModifyOrder(R, b, id, price, volume, draw) == Outcome(n.book, CANCELLED | n.flags, c.events + n.events)
  {
  }

  function GetOrder(b: Book, id: uint64): Option<Order> {
    if id in b.buys.index then Some(b.buys.index[id])
    else if id in b.sells.index then Some(b.sells.index[id])
    else None
  }

  // ----- Commands and runs -----

  /** A modification carries the value that a draw from the sequencer would give it. */
  datatype Command =
    | New(order: Order)
    | Cancel(id: uint64)
    | Modify(id: uint64, price: uint32, volume: uint32, draw: uint64)

  function Step(R: Rules, b: Book, c: Command): (r: Outcome)
    requires Tradable(b)
    ensures Tradable(r.book)
  {
    match c
    case New(order) => NewOrder(R, b, order)
    case Cancel(id) => CancelOrder(b, id)
    case Modify(id, price, volume, draw) => ModifyOrder(R, b, id, price, volume, draw)
  }

  /** The last book, the flags returned by each command, and all events. */
  datatype Trace = Trace(book: Book, flags: seq<ExecFlags>, events: seq<Event>)

  function Run(R: Rules, b: Book, commands: seq<Command>): (t: Trace)
    requires Tradable(b)
    ensures Tradable(t.book)
    ensures |t.flags| == |commands|
    decreases |commands|
  {
    if commands == [] then
      Trace(b, [], [])
    else
      var first := Step(R, b, commands[0]);
      Prepend(first, Run(R, first.book, commands[1..]))
  }

  function Prepend(first: Outcome, rest: Trace): Trace {
    Trace(rest.book, [first.flags] + rest.flags, first.events + rest.events)
  }

  function Join(t: Trace, u: Trace): Trace {
    Trace(u.book, t.flags + u.flags, t.events + u.events)
  }

  lemma JoinPrepend(first: Outcome, t: Trace, u: Trace)
    ensures Join(Prepend(first, t), u) == Prepend(first, Join(t, u))
  {
    assert [first.flags] + t.flags + u.flags == [first.flags] + (t.flags + u.flags);
    assert first.events + t.events + u.events == first.events + (t.events + u.events);
  }

  lemma {:induction false} RunConcat(R: Rules, b: Book, before: seq<Command>, after: seq<Command>)
    requires Tradable(b)
    ensures Run(R, b, before + after) == Join(Run(R, b, before), Run(R, Run(R, b, before).book, after))
    decreases |before|
  {
    if before == [] {
      assert before + after == after;
    } else {
      var first, whole := Step(R, b, before[0]), before + after;
      var t := Run(R, first.book, before[1..]);
      assert whole[0] == before[0] && whole[1..] == before[1..] + after;
      RunConcat(R, first.book, before[1..], after);
      JoinPrepend(first, t, Run(R, t.book, after));
    }
  }

  // ----- The book is never crossed -----

  ghost predicate OneSided(side: Side, s: seq<Order>) {
    forall o :: o in s ==> o.side == side
  }

  ghost predicate Uncrossed(b: Book) {
    forall bid, ask :: bid in b.buys.items && ask in b.sells.items ==> bid.price < ask.price
  }

  /** Invariant of every reachable book. */
  ghost predicate BookInv(R: Rules, b: Book) {
    && (forall side :: WellFormed(R.For(side), b.For(side)) && OneSided(side, b.For(side).items))
    && Uncrossed(b)
  }

  /** If the front of a sorted queue does not cross, nothing in it does. */
  lemma NothingCrosses(side: Side, less: Comparator, incoming: Order, s: seq<Order>)
    requires PriceFirst(side, less) && incoming.side == side.Opposite() && Sorted(less, s)
    requires s != [] ==> !PriceCrosses(incoming, s[0])
    ensures forall o :: o in s ==> !PriceCrosses(incoming, o)
  {
    forall i | 0 <= i < |s|
      ensures !PriceCrosses(incoming, s[i])
    {
      if PriceCrosses(incoming, s[i]) {
        CrossingIsPrefix(side, less, incoming, s, 0, i);
      }
    }
  }

  /** What one turn of the matching loop keeps of the opposite queue; every order left has the price and side of one
      that was there. */
  lemma AfterTradeKeeps(less: Comparator, q: Queue, volume: nat)
    requires StrictWeakOrder(less) && WellFormed(less, q)
    requires q.items != [] && volume <= q.items[0].volume
    ensures WellFormed(less, AfterTrade(less, q, volume))
    ensures forall o :: o in AfterTrade(less, q, volume).items ==> ComesFrom(o, q.items)
  {
    PopWellFormed(less, q);
    var rest, left := Pop(q), Reduced(q.items[0], volume);
    PushWellFormed(less, rest, left);
    InsertMembers(less, rest.items, left);
    assert q.items[0] in q.items && forall o :: o in rest.items ==> o in q.items;
  }

  ghost predicate ComesFrom(o: Order, s: seq<Order>) {
    exists x :: x in s && x.price == o.price && x.side == o.side
  }

  lemma {:induction false} MatchKeeps(less: Comparator, incoming: Order, q: Queue)
    requires StrictWeakOrder(less) && WellFormed(less, q)
    ensures WellFormed(less, Match(less, incoming, q).queue)
    ensures forall o :: o in Match(less, incoming, q).queue.items ==> ComesFrom(o, q.items)
    decreases incoming.volume
  {
    if CanTrade(incoming, q) {
      assert q.items[0] in q.items;
      var volume := Min(incoming.volume, q.items[0].volume);
      var q' := AfterTrade(less, q, volume);
      AfterTradeKeeps(less, q, volume);
      MatchKeeps(less, Reduced(incoming, volume), q');
      var r := Match(less, Reduced(incoming, volume), q');
      forall o | o in r.queue.items
        ensures ComesFrom(o, q.items)
      {
        var x :| x in q'.items && x.price == o.price && x.side == o.side;
        assert ComesFrom(x, q.items);
      }
    }
  }

  /** Resting an order that crosses nothing on the other side. */
  lemma RestingKeepsInv(R: Rules, b: Book, o: Order)
    requires R.Ok() && BookInv(R, b) && Tradable(b) && o.IsValid()
    requires forall x :: x in b.For(o.side.Opposite()).items ==> !PriceCrosses(o, x)
    ensures BookInv(R, PushOwn(R, b, o))
  {
    var less, q := R.For(o.side), b.For(o.side);
    assert WellFormed(less, q) && OneSided(o.side, q.items);
    PushWellFormed(less, q, o);
    InsertMembers(less, q.items, o);
    var b' := PushOwn(R, b, o);
    forall side
      ensures WellFormed(R.For(side), b'.For(side)) && OneSided(side, b'.For(side).items)
    {
      assert WellFormed(R.For(side), b.For(side)) && OneSided(side, b.For(side).items);
    }
    forall bid, ask | bid in b'.buys.items && ask in b'.sells.items
      ensures bid.price < ask.price
    {
      var x := if o.side == Buy then ask else bid;
      assert x in b.For(o.side.Opposite()).items;
    }
  }

  lemma MatchOrderKeepsInv(R: Rules, b: Book, incoming: Order)
    requires R.Ok() && BookInv(R, b) && Tradable(b) && incoming.IsValid()
    ensures BookInv(R, MatchOrder(R, b, incoming).book)
  {
    var other := incoming.side.Opposite();
    var less, q := R.For(other), b.For(other);
    assert WellFormed(less, q) && OneSided(other, q.items);
    assert WellFormed(R.For(incoming.side), b.For(incoming.side))
           && OneSided(incoming.side, b.For(incoming.side).items);
    MatchKeeps(less, incoming, q);
    var m := Match(less, incoming, q);
    var traded := b.With(other, m.queue);
    assert BookInv(R, traded);
    if m.incoming.volume != 0 {
      NothingCrosses(other, less, m.incoming, m.queue.items);
      RestingKeepsInv(R, traded, m.incoming);
    }
  }

  lemma NewOrderKeepsInv(R: Rules, b: Book, order: Order)
    requires R.Ok() && BookInv(R, b) && Tradable(b)
    ensures BookInv(R, NewOrder(R, b, order).book)
  {
    if order.IsValid() {
      if CanCross(b, order) {
        MatchOrderKeepsInv(R, b, order);
      } else {
        var other := order.side.Opposite();
        assert WellFormed(R.For(other), b.For(other));
        NothingCrosses(other, R.For(other), order, b.For(other).items);
        RestingKeepsInv(R, b, order);
        LevelsDoNotMatter(R, PushOwn(R, b, order), NewOrder(R, b, order).book);
      }
    }
  }

  lemma LevelsDoNotMatter(R: Rules, b: Book, b': Book)
    requires BookInv(R, b) && b'.buys == b.buys && b'.sells == b.sells
    ensures BookInv(R, b')
  {
    forall side
      ensures WellFormed(R.For(side), b'.For(side)) && OneSided(side, b'.For(side).items)
    {
      assert WellFormed(R.For(side), b.For(side)) && OneSided(side, b.For(side).items);
    }
  }

  lemma CancelFromKeepsInv(R: Rules, b: Book, side: Side, id: uint64)
    requires BookInv(R, b) && Tradable(b) && id in b.For(side).index
    ensures BookInv(R, CancelFrom(b, side, id).book)
  {
    var q := b.For(side);
    assert WellFormed(R.For(side), q) && OneSided(side, q.items);
    RemoveWellFormed(R.For(side), q, id);
    EraseMembers(q.items, q.index[id]);
    var other := side.Opposite();
    assert WellFormed(R.For(other), b.For(other)) && OneSided(other, b.For(other).items);
    var b' := b.With(side, Remove(q, id));
    assert BookInv(R, b');
    LevelsDoNotMatter(R, b', CancelFrom(b, side, id).book);
  }

  lemma CancelKeepsInv(R: Rules, b: Book, id: uint64)
    requires BookInv(R, b) && Tradable(b)
    ensures BookInv(R, CancelOrder(b, id).book)
  {
    if id in b.buys.index {
      CancelFromKeepsInv(R, b, Buy, id);
    } else if id in b.sells.index {
      CancelFromKeepsInv(R, b, Sell, id);
    }
  }

  lemma StepKeepsInv(R: Rules, b: Book, c: Command)
    requires R.Ok() && BookInv(R, b) && Tradable(b)
    ensures BookInv(R, Step(R, b, c).book)
  {
    match c {
      case New(order) => NewOrderKeepsInv(R, b, order);
      case Cancel(id) => CancelKeepsInv(R, b, id);
      case Modify(id, price, volume, draw) =>
        if id in b.buys.index {
          CancelKeepsInv(R, b, id);
          NewOrderKeepsInv(R, CancelOrder(b, id).book, Replacement(b.buys.index[id], price, volume, draw));
        }
    }
  }

  /** In every run the invariant is kept: sorted queues, valid orders on their own side, and no crossed prices. */
  lemma {:induction false} RunKeepsInv(R: Rules, b: Book, commands: seq<Command>)
    requires R.Ok() && BookInv(R, b) && Tradable(b)
    ensures BookInv(R, Run(R, b, commands).book)
    decreases |commands|
  {
    if commands != [] {
      StepKeepsInv(R, b, commands[0]);
      RunKeepsInv(R, Step(R, b, commands[0]).book, commands[1..]);
    }
  }

  lemma RunFromEmptyInv(R: Rules, commands: seq<Command>)
    requires R.Ok()
    ensures BookInv(R, Run(R, EmptyBook, commands).book)
  {
    RunKeepsInv(R, EmptyBook, commands);
  }

  /** From the empty book, whatever the commands: best bid strictly below best ask, hence every bid below every ask;
      each queue holds only its own side; every resting order is valid. */
  lemma NeverCrossed(R: Rules, commands: seq<Command>)
    requires R.Ok()
    ensures var b := Run(R, EmptyBook, commands).book;
      && (forall bid, ask :: bid in b.buys.items && ask in b.sells.items ==> bid.price < ask.price)
      && (forall o :: o in b.buys.items ==> o.side == Buy && o.IsValid())
      && (forall o :: o in b.sells.items ==> o.side == Sell && o.IsValid())
      && Sorted(R.buy, b.buys.items) && Sorted(R.sell, b.sells.items)
  {
    RunKeepsInv(R, EmptyBook, commands);
    var b := Run(R, EmptyBook, commands).book;
    assert WellFormed(R.For(Buy), b.For(Buy)) && OneSided(Buy, b.For(Buy).items);
    assert WellFormed(R.For(Sell), b.For(Sell)) && OneSided(Sell, b.For(Sell).items);
  }

  // ----- Flags tell the truth -----

  function Filled(events: seq<Event>): nat {
    if events == [] then 0
    else (if events[0].Executed? then events[0].volume else 0) + Filled(events[1..])
  }

  lemma {:induction false} FilledConcat(a: seq<Event>, b: seq<Event>)
    ensures Filled(a + b) == Filled(a) + Filled(b)
  {
    if a == [] {
      assert a + b == b;
    } else {
      assert (a + b)[1..] == a[1..] + b;
      FilledConcat(a[1..], b);
    }
  }

  lemma {:induction false} FilledByExecutions(taker: Order, trades: seq<Trade>)
    ensures Filled(Executions(taker, trades)) == TradedVolume(trades)
  {
    if trades != [] {
      FilledByExecutions(taker, trades[1..]);
      assert Executions(taker, trades)[1..] == Executions(taker, trades[1..]);
    }
  }

  /** What the loop takes from the incoming order is what it trades. */
  lemma {:induction false} MatchSpendsIncoming(less: Comparator, incoming: Order, q: Queue)
    requires AllValid(q.items)
    ensures var r := Match(less, incoming, q);
      r.incoming.volume + TradedVolume(r.trades) == incoming.volume
    ensures CanTrade(incoming, q) ==> TradedVolume(Match(less, incoming, q).trades) > 0
    decreases incoming.volume
  {
    if CanTrade(incoming, q) {
      assert q.items[0] in q.items;
      var volume := Min(incoming.volume, q.items[0].volume);
      var q' := AfterTrade(less, q, volume);
      MatchSpendsIncoming(less, Reduced(incoming, volume), q');
      var r := Match(less, incoming, q);
      assert r.trades[1..] == Match(less, Reduced(incoming, volume), q').trades;
    }
  }

  /** What an incoming order fills, and what the flags say of it: all of it, or that the rest is on the book. */
  lemma MatchOrderFills(R: Rules, b: Book, incoming: Order)
    requires Tradable(b)
    ensures var r := MatchOrder(R, b, incoming);
      var filled := Filled(r.events);
      var other := incoming.side.Opposite();
      var m := Match(R.For(other), incoming, b.For(other));
      if incoming.volume == 0 || incoming.price == 0 || incoming.client == "" then r == Outcome(b, REJECTED, [])
      else
        && filled == TradedVolume(m.trades) == incoming.volume - m.incoming.volume
        && (CanCross(b, incoming) ==> filled > 0)
        && r.flags == (if filled == incoming.volume then FULLY_FILLED else PARTIALLY_FILLED)
        && (filled < incoming.volume ==>
              incoming.(volume := incoming.volume - filled) in r.book.For(incoming.side).items)
  {
    var other := incoming.side.Opposite();
    var m := Match(R.For(other), incoming, b.For(other));
    MatchSpendsIncoming(R.For(other), incoming, b.For(other));
    FilledByExecutions(incoming, m.trades);
    FilledConcat(Executions(incoming, m.trades), [RestedResidue(m.incoming)]);
    InsertMembers(R.For(incoming.side), b.For(incoming.side).items, m.incoming);
  }

  /** The flags of a new order say exactly what happened to it. */
  lemma NewOrderFlags(R: Rules, b: Book, order: Order)
    requires Tradable(b)
    ensures var r := NewOrder(R, b, order);
      var filled := Filled(r.events);
      && FlagsAreValid(r.flags)
      && (r.flags == REJECTED <==> order.volume == 0 || order.price == 0 || order.client == "")
      && (r.flags == ACCEPTED <==> order.IsValid() && filled == 0)
      && (r.flags == ACCEPTED | FULLY_FILLED <==> order.IsValid() && filled == order.volume)
      && (r.flags == ACCEPTED | PARTIALLY_FILLED <==> order.IsValid() && 0 < filled < order.volume)
      && (!order.IsValid() ==> r.book == b && r.events == [])
      && (r.flags == ACCEPTED ==> order in r.book.For(order.side).items)
      && (r.flags == ACCEPTED | PARTIALLY_FILLED ==>
            order.(volume := order.volume - filled) in r.book.For(order.side).items)
      && (r.flags == ACCEPTED | FULLY_FILLED ==> r.book.For(order.side) == b.For(order.side))
  {
    if order.IsValid() {
      if CanCross(b, order) {
        MatchOrderFills(R, b, order);
        var m := MatchOrder(R, b, order);
        FilledConcat([Accepted(order)], m.events);
        var other := order.side.Opposite();
        var left := Match(R.For(other), order, b.For(other)).incoming;
        InsertMembers(R.For(order.side), b.For(order.side).items, left);
      } else {
        InsertMembers(R.For(order.side), b.For(order.side).items, order);
        assert [Accepted(order), Rested(order)][1..] == [Rested(order)];
        assert Filled([Rested(order)]) == 0;
      }
    }
  }

  /** Which combinations of the five flags the validity rule accepts. */
  lemma ValidFlags(f: ExecFlags)
    requires f < 32
    ensures [ACCEPTED, PARTIALLY_FILLED, FULLY_FILLED, CANCELLED, REJECTED] == [1, 2, 4, 8, 16]
    ensures FlagsAreValid(f) <==> f in {0, 1, 2, 3, 4, 5, 8, 10, 12, 16}
  {
  }

  lemma EraseTakesOne(s: seq<Order>, o: Order)
    requires o in s
    ensures multiset(EraseLast(s, o)) == multiset(s) - multiset{o}
  {
    var p := EraseSplit(s, o);
    assert s == s[..p] + [o] + s[p + 1..];
  }

  /** A cancellation takes out one order, the bid with this identifier if there is one, otherwise the ask; without such
      an order it is rejected and nothing changes. */
  lemma CancelTakesOut(R: Rules, b: Book, id: uint64)
    requires BookInv(R, b) && Tradable(b)
    ensures var r := CancelOrder(b, id);
      && (r.flags == REJECTED <==> id !in b.buys.index && id !in b.sells.index)
      && (r.flags == REJECTED ==> r.book == b && r.events == [])
      && (r.flags != REJECTED ==>
            var side := if id in b.buys.index then Buy else Sell;
            var o := b.For(side).index[id];
            && r.flags == CANCELLED && r.events == [Cancelled(o)] && o.id == id && o.side == side
            && multiset(r.book.For(side).items) == multiset(b.For(side).items) - multiset{o}
            && r.book.For(side).index == b.For(side).index - {id}
            && r.book.For(side.Opposite()) == b.For(side.Opposite()))
  {
    forall side | id in b.For(side).index
      ensures var o := b.For(side).index[id];
        && o.id == id && o.side == side
        && multiset(EraseLast(b.For(side).items, o)) == multiset(b.For(side).items) - multiset{o}
    {
      assert WellFormed(R.For(side), b.For(side)) && OneSided(side, b.For(side).items);
      EraseTakesOne(b.For(side).items, b.For(side).index[id]);
    }
  }

  lemma ReplacementIs(order: Order, price: uint32, volume: uint32, draw: uint64)
    requires order.side == Buy && |order.client| <= 7 && '\0' !in order.client
    ensures Replacement(order, price, volume, draw)
         == Order(order.id / TWO_32 * TWO_32 + draw % TWO_32, price, volume, Buy, order.client)
  {
  }

  /** What a modification of a resting bid does: the bid is cancelled, and an order with the new price and the new
      volume enters in its place, for the same client under the same client id, with the timestamp that was drawn. */
  lemma ModifyReplaces(R: Rules, b: Book, id: uint64, price: uint32, volume: uint32, draw: uint64)
    requires BookInv(R, b) && Tradable(b) && id in b.buys.index && price != 0 && volume != 0
    requires |b.buys.index[id].client| <= 7 && '\0' !in b.buys.index[id].client
    ensures var bid, r := b.buys.index[id], Step(R, b, Modify(id, price, volume, draw));
      var n := Order(id / TWO_32 * TWO_32 + draw % TWO_32, price, volume, Buy, bid.client);
      && |r.events| >= 2 && r.events[0] == Cancelled(bid) && r.events[1] == Accepted(n)
      && bid.id == id && bid in b.buys.items && Filled(r.events) <= volume
      && (Filled(r.events) < volume ==> n.(volume := volume - Filled(r.events)) in r.book.buys.items)
  {
    var bid, c := b.buys.index[id], CancelOrder(b, id);
    var n := Replacement(bid, price, volume, draw);
    assert bid.id == id && bid in b.buys.items && bid.side == Buy && bid.IsValid() by {
      assert WellFormed(R.For(Buy), b.For(Buy)) && OneSided(Buy, b.For(Buy).items);
    }
    ReplacementIs(bid, price, volume, draw);
    ModifyOutcome(R, b, id, price, volume, draw);
    NewOrderFlags(R, c.book, n);
    NewOrderAccepts(R, c.book, n);
    FilledConcat(c.events, NewOrder(R, c.book, n).events);
  }

  /** The first thing that a valid order causes is that it is accepted. */
  lemma NewOrderAccepts(R: Rules, b: Book, order: Order)
    requires Tradable(b) && order.IsValid()
    ensures NewOrder(R, b, order).events != [] && NewOrder(R, b, order).events[0] == Accepted(order)
  {
  }

  /** A modification returns a flag combination that the validity rule accepts exactly when there was no such resting
      buy order: a successful one returns CANCELLED together with ACCEPTED, a failed replacement CANCELLED with
      REJECTED. */
  lemma ModifyFlags(R: Rules, b: Book, id: uint64, price: uint32, volume: uint32, draw: uint64)
    requires Tradable(b)
    ensures var r := ModifyOrder(R, b, id, price, volume, draw);
      && (FlagsAreValid(r.flags) <==> id !in b.buys.index)
      && (r.flags == REJECTED <==> id !in b.buys.index)
      && (r.flags == REJECTED ==> r.book == b)
      && (r.flags == CANCELLED | REJECTED <==>
            id in b.buys.index && !Replacement(b.buys.index[id], price, volume, draw).IsValid())
      && (r.flags == CANCELLED | REJECTED ==> r.book == CancelOrder(b, id).book)
  {
    if id in b.buys.index {
      NewOrderFlags(R, CancelOrder(b, id).book, Replacement(b.buys.index[id], price, volume, draw));
    }
  }

  /** Such an input: a bid modified to no volume is gone, and what is returned says cancelled and rejected at once. */
  lemma ModifyCanCancelAndReject(R: Rules, draw: uint64)
    ensures var bid := Order(Pack(1, 5), 100, 10, Buy, "a");
      var t := Run(R, EmptyBook, [New(bid), Modify(bid.id, 100, 0, draw)]);
      t.flags == [ACCEPTED, CANCELLED | REJECTED] && !FlagsAreValid(CANCELLED | REJECTED) && t.book.buys == EmptyQueue
  {
    var bid := Order(Pack(1, 5), 100, 10, Buy, "a");
    var commands := [New(bid), Modify(bid.id, 100, 0, draw)];
    assert commands[1..] == [Modify(bid.id, 100, 0, draw)] && commands[1..][1..] == [];
    var b := NewOrder(R, EmptyBook, bid).book;
    assert b.buys == Queue([bid], map[bid.id := bid]);
    assert Step(R, b, commands[1]).flags == CANCELLED | REJECTED;
    assert Step(R, b, commands[1]).book.buys == EmptyQueue;
    assert Run(R, b, commands[1..])
        == Trace(Step(R, b, commands[1]).book, [CANCELLED | REJECTED], [Cancelled(bid)] + []);
  }
}
