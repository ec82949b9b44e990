/** The order book as the class whose methods update two queues and the level totals (core/OrderBook.cpp). Each method
    is proved against the function of the same name in OrderBooks; the class invariant carries what is proved there
    and in Ledger about every run. */
module Engine {
  import opened Orders
  import opened OrderQueues
  import opened Matching
  import opened Ledger
  import opened Sequences
  import Spec = OrderBooks

  datatype TopOfBook = TopOfBook(bid: Option<Order>, ask: Option<Order>)

  class OrderBook {
    ghost const rules: Spec.Rules
    const sellOrders: PriorityQueueAdapter
    const buyOrders: PriorityQueueAdapter
    var volumes: map<(uint32, Side), int32>
    // All events since the book was empty.
    ghost var history: seq<Spec.Event>

    function Model(): Spec.Book
      reads this, buyOrders, sellOrders
    {
      Spec.Book(buyOrders.Model(), sellOrders.Model(), volumes)
    }

    ghost predicate Structured()
      reads this, buyOrders, sellOrders
    {
      && buyOrders != sellOrders && buyOrders.Valid() && sellOrders.Valid()
      && buyOrders.less == rules.buy && sellOrders.less == rules.sell
      && Spec.Tradable(Model())
    }

    ghost predicate Valid()
      reads this, buyOrders, sellOrders
    {
      && Structured() && rules.Ok()
      && Spec.BookInv(rules, Model())
      && Balanced(Spec.EmptyBook, history, Model())
    }

    constructor (buyLess: Comparator, sellLess: Comparator)
      requires PriceFirst(Buy, buyLess) && PriceFirst(Sell, sellLess)
      ensures Valid() && Model() == Spec.EmptyBook && history == []
      ensures rules == Spec.Rules(buyLess, sellLess)
      ensures fresh(buyOrders) && fresh(sellOrders)
    {
      rules := Spec.Rules(buyLess, sellLess);
      buyOrders := new PriorityQueueAdapter(buyLess);
      sellOrders := new PriorityQueueAdapter(sellLess);
      volumes := map[];
      history := [];
      new;
      NothingHappened(Spec.EmptyBook);
    }

    function QueueFor(side: Side): (q: PriorityQueueAdapter)
      ensures q == if side == Buy then buyOrders else sellOrders
    {
      if side == Buy then buyOrders else sellOrders
    }

    predicate CanCross(incoming: Order)
      reads this, buyOrders, sellOrders
      ensures CanCross(incoming) == Spec.CanCross(Model(), incoming)
    {
      var opposite := QueueFor(incoming.side.Opposite());
      !opposite.Empty() && opposite.TopOrder().Some? && PriceCrosses(incoming, opposite.TopOrder().value)
    }

    /** Only the level totals change, and only at one key. */
    method AddVolume(price: uint32, side: Side, delta: int)
      modifies this`volumes
      ensures Model() == Spec.AddToLevel(old(Model()), price, side, delta)
    {
      var before := if (price, side) in volumes then volumes[(price, side)] else 0;
      volumes := volumes[(price, side) := Wrap32(before + delta)];
    }

    method NewOrder(order: Order) returns (flags: Spec.ExecFlags)
      requires Valid()
      modifies this, buyOrders, sellOrders
      ensures Valid()
      ensures var r := Spec.NewOrder(rules, old(Model()), order);
        Model() == r.book && flags == r.flags && history == old(history) + r.events
    {
      ghost var r := Spec.NewOrder(rules, Model(), order);
      Spec.NewOrderKeepsInv(rules, Model(), order);
      NewOrderBalanced(rules, Model(), order);
      BalancedChain(Spec.EmptyBook, history, Model(), r.events, r.book);
      history := history + r.events;
      if !order.IsValid() {
        return Spec.REJECTED;
      }
      flags := Spec.NO_FLAGS;
      if CanCross(order) {
        flags := MatchOrder(order);
        if Spec.HasFlag(flags, Spec.REJECTED) {
          return Spec.REJECTED;
        }
      } else {
        var valid := QueueFor(order.side).IsValid();
        assert valid;
        var ok := QueueFor(order.side).PushOrder(order);
        AddVolume(order.price, order.side, order.volume);
      }
      return flags | Spec.ACCEPTED;
    }

    /** One turn of the matching loop: the incoming order trades with the front of the opposite queue, which goes
        back in if it has volume left. The trade volume passes through a 32-bit signed integer. */
    method TradeWithBest(incoming: Order, opposite: PriorityQueueAdapter) returns (left: Order)
      requires opposite.Valid() && CanTrade(incoming, opposite.Model())
      modifies opposite
      ensures opposite.Valid()
      ensures var q := old(opposite.Model());
        var volume := Min(incoming.volume, q.items[0].volume);
        opposite.Model() == AfterTrade(opposite.less, q, volume) && left == Reduced(incoming, volume)
    {
      ghost var q := opposite.Model();
      var bestOpposite := opposite.TopOrder().value;
      var popped := opposite.PopOrder();
      var tradeVolume: int32 := Wrap32(Min(incoming.volume, bestOpposite.volume));
      TradeThroughIntIsExact(incoming.volume, bestOpposite.volume);
      left := incoming.(volume := SubtractU32(incoming.volume, tradeVolume));
      bestOpposite := bestOpposite.(volume := SubtractU32(bestOpposite.volume, tradeVolume));
      assert bestOpposite == Reduced(q.items[0], Min(incoming.volume, q.items[0].volume));
      if bestOpposite.IsValid() {
        var pushed := opposite.PushOrder(bestOpposite);
      }
    }

    /** The matching loop, proved against the recursive function whose closed form is in Matching. */
    method MatchAll(order: Order, opposite: PriorityQueueAdapter) returns (incoming: Order)
      requires opposite.Valid()
      modifies opposite
      ensures opposite.Valid()
      ensures var r := Match(opposite.less, order, old(opposite.Model()));
        opposite.Model() == r.queue && incoming == r.incoming
    {
      incoming := order;
      ghost var trades: seq<Trade> := [];
      while incoming.IsValid() && !opposite.Empty()
        invariant opposite.Valid()
        invariant Match(opposite.less, order, old(opposite.Model()))
               == AfterTrades(trades, Match(opposite.less, incoming, opposite.Model()))
        decreases incoming.volume
      {
        if !PriceCrosses(incoming, opposite.TopOrder().value) {
          break;
        }
        assert opposite.TopOrder().value in opposite.Model().items;
        ghost var rest := Match(opposite.less, incoming, opposite.Model());
        incoming := TradeWithBest(incoming, opposite);
        trades := trades + rest.trades[..1];
      }
    }

    static function AfterTrades(done: seq<Trade>, rest: MatchResult): MatchResult {
      rest.(trades := done + rest.trades)
    }

    method MatchOrder(order: Order) returns (flags: Spec.ExecFlags)
      requires Structured()
      modifies buyOrders, sellOrders
      ensures Structured()
      ensures var r := Spec.MatchOrder(rules, old(Model()), order);
        Model() == r.book && flags == r.flags
    {
      if !order.IsValid() {
        return Spec.REJECTED;
      }
      var oppositeValid := QueueFor(order.side.Opposite()).IsValid();
      assert oppositeValid;
      var incoming := MatchAll(order, QueueFor(order.side.Opposite()));
      if incoming.volume <= 0 {
        return Spec.FULLY_FILLED;
      }
      var ownValid := QueueFor(incoming.side).IsValid();
      assert ownValid;
      var ok := QueueFor(incoming.side).PushOrder(incoming);
      return Spec.PARTIALLY_FILLED;
    }

    /** Takes a found order out of its queue and its volume off the level. */
    method CancelIn(side: Side, orderId: uint64) returns (flags: Spec.ExecFlags)
      requires Structured() && orderId in Model().For(side).index
      modifies this`volumes, QueueFor(side)
      ensures Structured()
      ensures Model() == Spec.CancelFrom(old(Model()), side, orderId).book && flags == Spec.CANCELLED
    {
      var order := QueueFor(side).FindOrder(orderId).value;
      var ok := QueueFor(side).RemoveOrder(orderId);
      if !ok {
        return Spec.REJECTED;
      }
      AddVolume(order.price, side, 0 - order.volume);
      return Spec.CANCELLED;
    }

    method CancelOrder(orderId: uint64) returns (flags: Spec.ExecFlags)
      requires Valid()
      modifies this, buyOrders, sellOrders
      ensures Valid()
      ensures var r := Spec.CancelOrder(old(Model()), orderId);
        Model() == r.book && flags == r.flags && history == old(history) + r.events
    {
      ghost var r := Spec.CancelOrder(Model(), orderId);
      Spec.CancelKeepsInv(rules, Model(), orderId);
      CancelOrderBalanced(rules, Model(), orderId);
      BalancedChain(Spec.EmptyBook, history, Model(), r.events, r.book);
      history := history + r.events;
      if buyOrders.FindOrder(orderId).Some? {
        flags := CancelIn(Buy, orderId);
      } else if sellOrders.FindOrder(orderId).Some? {
        flags := CancelIn(Sell, orderId);
      } else {
        flags := Spec.REJECTED;
      }
    }

    /** Builds the replacement of a cancelled order, for which it draws a timestamp, and enters it. */
    method EnterReplacement(order: Order, newPrice: uint32, newVolume: uint32, sequencer: GlobalSequencer)
      returns (flags: Spec.ExecFlags)
      requires Valid() && sequencer.Valid()
      modifies this, buyOrders, sellOrders, sequencer
      ensures Valid() && sequencer.Valid() && sequencer.drawn == old(sequencer.drawn) + 1
      ensures var draw := DrawAt(sequencer.epoch, old(sequencer.drawn));
        var r := Spec.NewOrder(rules, old(Model()), Spec.Replacement(order, newPrice, newVolume, draw));
        Model() == r.book && flags == r.flags && history == old(history) + r.events
    {
      var draw := sequencer.NextTimestampNs();
      var newOrder := NewOrderValue(Unpack(order.id).0, newPrice, newVolume, if order.side == Buy then Buy else Sell,
                                    order.client, draw);
      flags := NewOrder(newOrder);
    }

    /** Cancels a buy order and enters its replacement. A sell order is not found. */
    method ModifyOrder(orderId: uint64, newPrice: uint32, newVolume: uint32, sequencer: GlobalSequencer)
      returns (flags: Spec.ExecFlags)
      requires Valid() && sequencer.Valid()
      modifies this, buyOrders, sellOrders, sequencer
      ensures Valid() && sequencer.Valid()
      ensures var draw := DrawAt(sequencer.epoch, old(sequencer.drawn));
        var r := Spec.ModifyOrder(rules, old(Model()), orderId, newPrice, newVolume, draw);
        Model() == r.book && flags == r.flags && history == old(history) + r.events
      ensures sequencer.drawn == old(sequencer.drawn) + if orderId in old(Model()).buys.index then 1 else 0
    {
      var found := buyOrders.FindOrder(orderId);
      if found.None? {
        return Spec.REJECTED;
      }
      var order := found.value;
      ghost var draw := DrawAt(sequencer.epoch, sequencer.drawn);
      ghost var c := Spec.CancelOrder(Model(), orderId);
      ghost var n := Spec.NewOrder(rules, c.book, Spec.Replacement(order, newPrice, newVolume, draw));
      Spec.ModifyOutcome(rules, Model(), orderId, newPrice, newVolume, draw);
      Associates(history, c.events, n.events);
      flags := CancelOrder(orderId);
      if Spec.HasFlag(flags, Spec.REJECTED) {
        return flags;
      }
      var more := EnterReplacement(order, newPrice, newVolume, sequencer);
      flags := flags | more;
    }

    /** The best bid and the best ask: nothing on the same side goes before them, and they do not cross. */
    method GetTopOfBook() returns (top: TopOfBook)
      requires Valid()
      ensures top.bid == Top(Model().buys) && top.ask == Top(Model().sells)
      ensures top.bid.Some? ==> forall o :: o in Model().buys.items ==> o.price <= top.bid.value.price
      ensures top.ask.Some? ==> forall o :: o in Model().sells.items ==> o.price >= top.ask.value.price
      ensures top.bid.Some? && top.ask.Some? ==> top.bid.value.price < top.ask.value.price
    {
      TopIsMinimal(rules.buy, Model().buys);
      TopIsMinimal(rules.sell, Model().sells);
      assert forall o, p :: BetterPrice(Buy, o, p) <==> o > p;
      top := TopOfBook(buyOrders.TopOrder(), sellOrders.TopOrder());
    }

    method GetOrder(orderId: uint64) returns (found: Option<Order>)
      requires Valid()
      ensures found == Spec.GetOrder(Model(), orderId)
      ensures found.None? <==> orderId !in Model().buys.index && orderId !in Model().sells.index
      ensures orderId in Model().buys.index ==> found == Some(Model().buys.index[orderId])
      ensures orderId !in Model().buys.index && orderId in Model().sells.index ==>
        found == Some(Model().sells.index[orderId])
      ensures found.Some? ==> found.value.id == orderId && found.value in Model().For(found.value.side).items
    {
      assert WellFormed(rules.For(Buy), Model().For(Buy)) && Spec.OneSided(Buy, Model().For(Buy).items);
      assert WellFormed(rules.For(Sell), Model().For(Sell)) && Spec.OneSided(Sell, Model().For(Sell).items);
      found := buyOrders.FindOrder(orderId);
      if found.None? {
        found := sellOrders.FindOrder(orderId);
      }
    }
  }
}
