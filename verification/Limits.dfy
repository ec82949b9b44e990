/** At which prices orders trade: never beyond the limit of either (core/OrderBook.cpp:18-23, 57-71). */
module Limits {
  import opened Orders
  import opened OrderQueues
  import opened Matching
  import opened OrderBooks

  /** The two orders are on different sides; the buyer pays no more than its limit, the seller gets no less. */
  predicate WithinLimits(taker: Order, maker: Order) {
    && (taker.side == Buy ==> maker.side == Sell && maker.price <= taker.price)
    && (taker.side == Sell ==> maker.side == Buy && maker.price >= taker.price)
  }

  predicate FairEvent(e: Event) {
    e.Executed? ==> WithinLimits(e.taker, e.maker) && 0 < e.volume <= e.maker.volume && e.volume <= e.taker.volume
  }

  ghost predicate Fair(events: seq<Event>) {
    forall e :: e in events ==> FairEvent(e)
  }

  lemma AfterTradeOneSided(side: Side, less: Comparator, q: Queue, volume: nat)
    requires q.items != [] && volume <= q.items[0].volume && AllValid(q.items) && OneSided(side, q.items)
    ensures OneSided(side, AfterTrade(less, q, volume).items)
  {
    assert q.items[0] in q.items && forall o :: o in q.items[1..] ==> o in q.items;
    InsertMembers(less, q.items[1..], Reduced(q.items[0], volume));
  }

  lemma {:induction false} MatchWithinLimits(side: Side, less: Comparator, incoming: Order, q: Queue)
    requires incoming.side == side.Opposite() && AllValid(q.items) && OneSided(side, q.items)
    ensures forall t :: t in Match(less, incoming, q).trades ==>
              WithinLimits(incoming, t.maker) && 0 < t.volume <= t.maker.volume && t.volume <= incoming.volume
    decreases incoming.volume
  {
    if CanTrade(incoming, q) {
      assert q.items[0] in q.items;
      var volume := Min(incoming.volume, q.items[0].volume);
      AfterTradeOneSided(side, less, q, volume);
      MatchWithinLimits(side, less, Reduced(incoming, volume), AfterTrade(less, q, volume));
    }
  }

  lemma {:induction false} ExecutionsFair(taker: Order, trades: seq<Trade>)
    requires forall t :: t in trades ==>
               WithinLimits(taker, t.maker) && 0 < t.volume <= t.maker.volume && t.volume <= taker.volume
    ensures Fair(Executions(taker, trades))
    ensures forall e :: e in Executions(taker, trades) ==> e.Executed? && e.taker == taker
    decreases |trades|
  {
    if trades != [] {
      assert trades[0] in trades && forall t :: t in trades[1..] ==> t in trades;
      ExecutionsFair(taker, trades[1..]);
    }
  }

  lemma SideOf(R: Rules, b: Book, side: Side)
    requires BookInv(R, b)
    ensures OneSided(side, b.For(side).items)
  {
    assert WellFormed(R.For(side), b.For(side)) && OneSided(side, b.For(side).items);
  }

  /** An order that enters trades within the limits, and it is the taker of all trades that it causes. */
  lemma EntryIsFair(R: Rules, b: Book, order: Order)
    requires BookInv(R, b) && Tradable(b)
    ensures Fair(NewOrder(R, b, order).events)
    ensures forall e :: e in NewOrder(R, b, order).events && e.Executed? ==> e.taker == order
  {
    var other := order.side.Opposite();
    SideOf(R, b, other);
    MatchWithinLimits(other, R.For(other), order, b.For(other));
    ExecutionsFair(order, Match(R.For(other), order, b.For(other)).trades);
  }

  lemma StepIsFair(R: Rules, b: Book, c: Command)
    requires R.Ok() && BookInv(R, b) && Tradable(b)
    ensures Fair(Step(R, b, c).events)
  {
    match c {
      case New(order) => EntryIsFair(R, b, order);
      case Cancel(id) =>
      case Modify(id, price, volume, draw) =>
        if id in b.buys.index {
          CancelKeepsInv(R, b, id);
          EntryIsFair(R, CancelOrder(b, id).book, Replacement(b.buys.index[id], price, volume, draw));
        }
    }
  }

  lemma {:induction false} RunIsFair(R: Rules, b: Book, commands: seq<Command>)
    requires R.Ok() && BookInv(R, b) && Tradable(b)
    ensures Fair(Run(R, b, commands).events)
    decreases |commands|
  {
    if commands != [] {
      StepIsFair(R, b, commands[0]);
      StepKeepsInv(R, b, commands[0]);
      RunIsFair(R, Step(R, b, commands[0]).book, commands[1..]);
    }
  }

  /** In any run from the empty book, whatever the commands, two orders trade only when they are on different sides and
      the price of the resting one is within the limit of the incoming one, and neither gives more than it has. */
  lemma TradesWithinLimits(R: Rules, commands: seq<Command>, taker: Order, maker: Order, volume: nat)
    requires R.Ok() && Executed(taker, maker, volume) in Run(R, EmptyBook, commands).events
    ensures taker.side == Buy ==> maker.side == Sell && maker.price <= taker.price
    ensures taker.side == Sell ==> maker.side == Buy && maker.price >= taker.price
    ensures 0 < volume <= maker.volume && volume <= taker.volume
  {
    RunIsFair(R, EmptyBook, commands);
    assert FairEvent(Executed(taker, maker, volume));
  }
}
