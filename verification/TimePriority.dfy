/** Price and time priority over whole runs: in which order the resting orders at one price trade
    (core/OrderBook.hpp:14-32, core/OrderBook.cpp:26-84, core/GlobalSequencer.hpp:35-38). */
module TimePriority {
  import opened Orders
  import opened OrderQueues
  import opened Matching
  import opened OrderBooks

  const AS_WRITTEN := Rules(AsWritten(Buy), AsWritten(Sell))
  const FIRST_IN_FIRST_OUT := Rules(Fifo(Buy), Fifo(Sell))

  lemma BothRulesAreOk()
    ensures AS_WRITTEN.Ok() && FIRST_IN_FIRST_OUT.Ok()
  {
    BothComparatorsArePriceFirst(Buy);
    BothComparatorsArePriceFirst(Sell);
  }

  // ----- One match -----

  predicate SameLevel(a: Order, b: Order) {
    a.side == b.side && a.price == b.price
  }

  /** Of these resting orders the first n trade, in this order: an older order at the price of one of them has traded
      before it. */
  ghost predicate InTime(s: seq<Order>, n: nat) {
    forall i, j :: 0 <= i < |s| && i < n && 0 <= j < |s| && s[j].price == s[i].price ==>
      (s[j].Timestamp() < s[i].Timestamp() ==> j < i)
  }

  /** At the price of each order that trades, all orders have one timestamp; that is, if no two orders carry the same
      timestamp, each that trades is alone at its price. */
  ghost predicate Alike(s: seq<Order>, n: nat) {
    forall i, j :: 0 <= i < |s| && i < n && 0 <= j < |s| && s[j].price == s[i].price ==>
      s[j].Timestamp() == s[i].Timestamp()
  }

  lemma FifoIsInTime(side: Side, s: seq<Order>, n: nat)
    requires Sorted(Fifo(side), s)
    ensures InTime(s, n)
  {
    forall i, j | 0 <= i < j < |s| && s[j].price == s[i].price
      ensures s[i].Timestamp() <= s[j].Timestamp()
    {
      FifoKeepsTimePriority(side, s, i, j);
    }
  }

  lemma AsWrittenIsInTimeIfAlike(side: Side, s: seq<Order>, n: nat)
    requires Sorted(AsWritten(side), s)
    ensures InTime(s, n) <==> Alike(s, n)
  {
    forall i, j | 0 <= i < j < |s| && s[j].price == s[i].price
      ensures s[j].Timestamp() <= s[i].Timestamp()
    {
      AsWrittenReversesTimePriority(side, s, i, j);
      assert !AsWritten(side)(s[j], s[i]);
    }
  }

  // ----- Runs -----

  /** How many resting orders an entering order takes from. */
  function Takes(R: Rules, b: Book, order: Order): nat
    requires Tradable(b)
  {
    var other := order.side.Opposite();
    |Match(R.For(other), order, b.For(other)).trades|
  }

  ghost predicate EntryInTime(R: Rules, b: Book, order: Order)
    requires Tradable(b)
  {
    InTime(b.For(order.side.Opposite()).items, Takes(R, b, order))
  }

  ghost predicate EntryAlike(R: Rules, b: Book, order: Order)
    requires Tradable(b)
  {
    Alike(b.For(order.side.Opposite()).items, Takes(R, b, order))
  }

  /** What enters the book with a command, and the book that it enters. */
  function Entering(b: Book, c: Command): (r: Option<(Book, Order)>)
    requires Tradable(b)
    ensures r.Some? ==> Tradable(r.value.0)
  {
    match c
    case New(order) => Some((b, order))
    case Cancel(_) => None
    case Modify(id, price, volume, draw) =>
      if id in b.buys.index then Some((CancelOrder(b, id).book, Replacement(b.buys.index[id], price, volume, draw)))
      else None
  }

  /** Each order that trades in the run has no older one at its price still waiting. */
  ghost predicate RunInTime(R: Rules, b: Book, commands: seq<Command>)
    requires Tradable(b)
    decreases |commands|
  {
    commands != [] ==>
      && (var e := Entering(b, commands[0]); e.Some? ==> EntryInTime(R, e.value.0, e.value.1))
      && RunInTime(R, Step(R, b, commands[0]).book, commands[1..])
  }

  ghost predicate RunAlike(R: Rules, b: Book, commands: seq<Command>)
    requires Tradable(b)
    decreases |commands|
  {
    commands != [] ==>
      && (var e := Entering(b, commands[0]); e.Some? ==> EntryAlike(R, e.value.0, e.value.1))
      && RunAlike(R, Step(R, b, commands[0]).book, commands[1..])
  }

  lemma EnteringKeepsInv(R: Rules, b: Book, c: Command)
    requires R.Ok() && BookInv(R, b) && Tradable(b)
    ensures Entering(b, c).Some? ==> BookInv(R, Entering(b, c).value.0)
  {
    if c.Modify? && c.id in b.buys.index {
      CancelKeepsInv(R, b, c.id);
    }
  }

  lemma SideIsSorted(R: Rules, b: Book, side: Side)
    requires BookInv(R, b)
    ensures Sorted(R.For(side), b.For(side).items) && OneSided(side, b.For(side).items)
  {
    assert WellFormed(R.For(side), b.For(side)) && OneSided(side, b.For(side).items);
  }

  /** First in, first out: in every run, whatever the timestamps. */
  lemma {:induction false} FifoRunIsInTime(b: Book, commands: seq<Command>)
    requires BookInv(FIRST_IN_FIRST_OUT, b) && Tradable(b)
    ensures RunInTime(FIRST_IN_FIRST_OUT, b, commands)
    decreases |commands|
  {
    var R := FIRST_IN_FIRST_OUT;
    if commands != [] {
      BothRulesAreOk();
      EnteringKeepsInv(R, b, commands[0]);
      var e := Entering(b, commands[0]);
      if e.Some? {
        var other := e.value.1.side.Opposite();
        SideIsSorted(R, e.value.0, other);
        FifoIsInTime(other, e.value.0.For(other).items, Takes(R, e.value.0, e.value.1));
      }
      StepKeepsInv(R, b, commands[0]);
      FifoRunIsInTime(Step(R, b, commands[0]).book, commands[1..]);
    }
  }

  /** As written: a run keeps time priority exactly when every order that trades in it is, but for equal timestamps,
      alone at its price at that moment. */
  lemma {:induction false} AsWrittenRunIsInTimeIfAlike(b: Book, commands: seq<Command>)
    requires BookInv(AS_WRITTEN, b) && Tradable(b)
    ensures RunInTime(AS_WRITTEN, b, commands) <==> RunAlike(AS_WRITTEN, b, commands)
    decreases |commands|
  {
    var R := AS_WRITTEN;
    if commands != [] {
      BothRulesAreOk();
      EnteringKeepsInv(R, b, commands[0]);
      var e := Entering(b, commands[0]);
      if e.Some? {
        var other := e.value.1.side.Opposite();
        SideIsSorted(R, e.value.0, other);
        AsWrittenIsInTimeIfAlike(other, e.value.0.For(other).items, Takes(R, e.value.0, e.value.1));
      }
      StepKeepsInv(R, b, commands[0]);
      AsWrittenRunIsInTimeIfAlike(Step(R, b, commands[0]).book, commands[1..]);
    }
  }

  // ----- A property of orders that a run keeps -----

  type Property = Order -> bool

  ghost predicate VolumeBlind(f: Property) {
    forall o: Order, v: uint32 :: f(o.(volume := v)) == f(o)
  }

  ghost predicate All(f: Property, s: seq<Order>) {
    forall o :: o in s ==> f(o)
  }

  ghost predicate AllRest(f: Property, b: Book) {
    All(f, b.buys.items) && All(f, b.sells.items)
  }

  ghost predicate AllMakers(f: Property, events: seq<Event>) {
    forall e :: e in events && e.Executed? ==> f(e.maker)
  }

  lemma {:induction false} MatchHasProperty(f: Property, less: Comparator, incoming: Order, q: Queue)
    requires VolumeBlind(f) && AllValid(q.items) && All(f, q.items)
    ensures var r := Match(less, incoming, q);
      All(f, r.queue.items) && forall t :: t in r.trades ==> f(t.maker)
    decreases incoming.volume
  {
    if CanTrade(incoming, q) {
      assert q.items[0] in q.items;
      var volume := Min(incoming.volume, q.items[0].volume);
      var rest, left := Pop(q), Reduced(q.items[0], volume);
      assert f(left) && forall o :: o in rest.items ==> o in q.items;
      InsertMembers(less, rest.items, left);
      MatchHasProperty(f, less, Reduced(incoming, volume), AfterTrade(less, q, volume));
    }
  }

  lemma {:induction false} ExecutionsAre(taker: Order, trades: seq<Trade>)
    ensures |Executions(taker, trades)| == |trades|
    ensures forall i :: 0 <= i < |trades| ==>
      Executions(taker, trades)[i] == Executed(taker, trades[i].maker, trades[i].volume)
    decreases |trades|
  {
    if trades != [] {
      ExecutionsAre(taker, trades[1..]);
      assert forall i :: 0 < i < |trades| ==> trades[i] == trades[1..][i - 1];
    }
  }

  lemma PushOwnMembers(R: Rules, b: Book, o: Order)
    requires Tradable(b)
    ensures forall x :: x in PushOwn(R, b, o).For(o.side).items ==> x in b.For(o.side).items || x == o
    ensures PushOwn(R, b, o).For(o.side.Opposite()) == b.For(o.side.Opposite())
  {
    InsertMembers(R.For(o.side), b.For(o.side).items, o);
  }

  lemma OrderRestsWithProperty(f: Property, R: Rules, b: Book, order: Order)
    requires Tradable(b) && AllRest(f, b) && f(order)
    ensures AllRest(f, PushOwn(R, b, order))
  {
    var b' := PushOwn(R, b, order);
    PushOwnMembers(R, b, order);
    assert All(f, b.For(order.side).items) && All(f, b.For(order.side.Opposite()).items);
    assert All(f, b'.For(order.side).items) && All(f, b'.For(order.side.Opposite()).items);
  }

  lemma MatchOrderHasProperty(f: Property, R: Rules, b: Book, order: Order)
    requires VolumeBlind(f) && Tradable(b) && AllRest(f, b) && f(order)
    ensures var r := MatchOrder(R, b, order); AllRest(f, r.book) && AllMakers(f, r.events)
  {
    var other := order.side.Opposite();
    assert All(f, b.For(other).items);
    var m := Match(R.For(other), order, b.For(other));
    MatchHasProperty(f, R.For(other), order, b.For(other));
    ExecutionsAre(order, m.trades);
    assert f(m.incoming) && AllRest(f, b.With(other, m.queue));
    OrderRestsWithProperty(f, R, b.With(other, m.queue), m.incoming);
  }

  /** What all resting orders and the entering one have, all makers have and all orders at rest afterwards. */
  lemma EntryHasProperty(f: Property, R: Rules, b: Book, order: Order)
    requires VolumeBlind(f) && Tradable(b) && AllRest(f, b) && f(order)
    ensures var r := NewOrder(R, b, order); AllRest(f, r.book) && AllMakers(f, r.events)
  {
    MatchOrderHasProperty(f, R, b, order);
    OrderRestsWithProperty(f, R, b, order);
  }

  lemma CancelHasProperty(f: Property, b: Book, id: uint64)
    requires Tradable(b) && AllRest(f, b)
    ensures AllRest(f, CancelOrder(b, id).book) && AllMakers(f, CancelOrder(b, id).events)
  {
    forall side | id in b.For(side).index
      ensures All(f, EraseLast(b.For(side).items, b.For(side).index[id]))
    {
      EraseMembers(b.For(side).items, b.For(side).index[id]);
    }
  }

  /** Whatever enters with a command has the timestamp that the command draws. */
  function Stamp(c: Command): Option<uint32> {
    match c
    case New(order) => Some(order.Timestamp())
    case Cancel(_) => None
    case Modify(_, _, _, draw) => Some(draw % TWO_32)
  }

  lemma EnteringIsStamped(b: Book, c: Command)
    requires Tradable(b) && Entering(b, c).Some?
    ensures Stamp(c) == Some(Entering(b, c).value.1.Timestamp())
  {
    if c.Modify? {
      PackUnpack(Unpack(b.buys.index[c.id].id).0, c.draw % TWO_32, 0);
    }
  }

  lemma StepHasProperty(f: Property, R: Rules, b: Book, c: Command)
    requires VolumeBlind(f) && Tradable(b) && AllRest(f, b)
    requires Entering(b, c).Some? ==> f(Entering(b, c).value.1)
    ensures AllRest(f, Step(R, b, c).book) && AllMakers(f, Step(R, b, c).events)
  {
    match c {
      case New(order) => EntryHasProperty(f, R, b, order);
      case Cancel(id) => CancelHasProperty(f, b, id);
      case Modify(id, price, volume, draw) =>
        if id in b.buys.index {
          CancelHasProperty(f, b, id);
          EntryHasProperty(f, R, CancelOrder(b, id).book, Entering(b, c).value.1);
        }
    }
  }

  /** The timestamps drawn are no less than x and do not decrease. */
  ghost predicate StampsFrom(x: nat, commands: seq<Command>)
    decreases |commands|
  {
    commands != [] ==>
      if Stamp(commands[0]).None? then StampsFrom(x, commands[1..])
      else x <= Stamp(commands[0]).value && StampsFrom(Stamp(commands[0]).value, commands[1..])
  }

  function NextStamp(x: nat, c: Command): nat {
    if Stamp(c).Some? then Stamp(c).value else x
  }

  /** What all resting orders have, and all orders issued at x or later, all makers of the run have. */
  lemma {:induction false} RunHasProperty(f: Property, R: Rules, b: Book, commands: seq<Command>, x: nat)
    requires VolumeBlind(f) && Tradable(b) && AllRest(f, b)
    requires StampsFrom(x, commands) && forall o: Order :: o.Timestamp() >= x ==> f(o)
    ensures AllMakers(f, Run(R, b, commands).events)
    decreases |commands|
  {
    if commands != [] {
      if Entering(b, commands[0]).Some? {
        EnteringIsStamped(b, commands[0]);
      }
      StepHasProperty(f, R, b, commands[0]);
      RunHasProperty(f, R, Step(R, b, commands[0]).book, commands[1..], NextStamp(x, commands[0]));
    }
  }

  // ----- Trades in order of issue -----

  /** Of two trades at one price level, the maker of the earlier one was issued no later than that of the other. */
  ghost predicate InIssueOrder(events: seq<Event>) {
    forall i, j :: 0 <= i < j < |events| && events[i].Executed? && events[j].Executed? ==>
      (SameLevel(events[i].maker, events[j].maker) ==> events[i].maker.Timestamp() <= events[j].maker.Timestamp())
  }

  /** Not an older order at the level of m. */
  function NotBefore(m: Order): Property {
    (o: Order) => SameLevel(m, o) ==> m.Timestamp() <= o.Timestamp()
  }

  function UpTo(x: nat): Property {
    (o: Order) => o.Timestamp() <= x
  }

  ghost predicate Separates(a: seq<Event>, b: seq<Event>) {
    forall e :: e in a && e.Executed? ==> AllMakers(NotBefore(e.maker), b)
  }

  lemma InOrderConcat(a: seq<Event>, b: seq<Event>)
    requires InIssueOrder(a) && InIssueOrder(b) && Separates(a, b)
    ensures InIssueOrder(a + b)
  {
    var s := a + b;
    forall i, j | 0 <= i < j < |s| && s[i].Executed? && s[j].Executed? && SameLevel(s[i].maker, s[j].maker)
      ensures s[i].maker.Timestamp() <= s[j].maker.Timestamp()
    {
      if i < |a| <= j {
        assert a[i] in a && b[j - |a|] in b;
        assert NotBefore(a[i].maker)(b[j - |a|].maker);
      } else if j < |a| {
        assert s[i] == a[i] && s[j] == a[j];
      } else {
        assert s[i] == b[i - |a|] && s[j] == b[j - |a|];
      }
    }
  }

  lemma LeftoverMembers(less: Comparator, incoming: Order, s: seq<Order>, n: nat, o: Order)
    requires n <= |s| && o in Leftover(less, incoming, s, n)
    ensures exists j :: 0 <= j < |s| && n <= j + 1 && s[j].(volume := o.volume) == o
  {
    if n > 0 && Share(incoming, s, n - 1) < s[n - 1].volume {
      InsertMembers(less, s[n..], Reduced(s[n - 1], Share(incoming, s, n - 1)));
    }
    if o in s[n..] {
      var k :| 0 <= k < |s[n..]| && s[n..][k] == o;
      assert s[n + k].(volume := o.volume) == o;
    } else {
      assert s[n - 1].(volume := o.volume) == o;
    }
  }

  lemma LeftoverIsNotBefore(less: Comparator, incoming: Order, s: seq<Order>, n: nat, i: nat, o: Order)
    requires i < n <= |s| && InTime(s, n) && o in Leftover(less, incoming, s, n)
    ensures NotBefore(s[i])(o)
  {
    LeftoverMembers(less, incoming, s, n, o);
    var j :| 0 <= j < |s| && n <= j + 1 && s[j].(volume := o.volume) == o;
    assert s[j].Timestamp() == o.Timestamp();
  }

  /** The trades of a match take the makers of one level in order of issue, and none that is left is older than one of
      them. */
  ghost predicate TradesInOrder(r: MatchResult) {
    && (forall i, j :: 0 <= i < j < |r.trades| ==> NotBefore(r.trades[i].maker)(r.trades[j].maker))
    && (forall i :: 0 <= i < |r.trades| ==> All(NotBefore(r.trades[i].maker), r.queue.items))
  }

  lemma AllocationInOrder(less: Comparator, incoming: Order, q: Queue, r: MatchResult)
    requires IsAllocation(less, incoming, q, r) && InTime(q.items, |r.trades|)
    ensures TradesInOrder(r)
  {
    var s, n := q.items, |r.trades|;
    forall i, o | 0 <= i < n && o in r.queue.items
      ensures NotBefore(s[i])(o)
    {
      LeftoverIsNotBefore(less, incoming, s, n, i, o);
    }
    forall i, j | 0 <= i < j < n
      ensures NotBefore(s[i])(s[j])
    {
    }
  }

  /** A match in time. */
  lemma MatchInOrder(side: Side, less: Comparator, incoming: Order, q: Queue)
    requires PriceFirst(side, less) && incoming.side == side.Opposite() && incoming.IsValid()
    requires Sorted(less, q.items) && AllValid(q.items) && OneSided(side, q.items)
    requires InTime(q.items, |Match(less, incoming, q).trades|)
    ensures TradesInOrder(Match(less, incoming, q))
    ensures forall t :: t in Match(less, incoming, q).trades ==> t.maker.side == side
  {
    var r := Match(less, incoming, q);
    MatchIsAllocation(side, less, incoming, q);
    AllocationInOrder(less, incoming, q, r);
    MakersAreFrom(less, incoming, q, r);
  }

  lemma MakersAreFrom(less: Comparator, incoming: Order, q: Queue, r: MatchResult)
    requires IsAllocation(less, incoming, q, r)
    ensures forall t :: t in r.trades ==> t.maker in q.items
  {
  }

  /** The executions of a match, between other events. */
  lemma ExecutionsInOrder(taker: Order, trades: seq<Trade>, events: seq<Event>, first: Event, more: seq<Event>)
    requires forall i, j :: 0 <= i < j < |trades| ==> NotBefore(trades[i].maker)(trades[j].maker)
    requires events == [first] + Executions(taker, trades) + more && !first.Executed?
    requires forall e :: e in more ==> !e.Executed?
    ensures InIssueOrder(events)
    ensures forall e :: e in events && e.Executed? ==> exists i :: 0 <= i < |trades| && trades[i].maker == e.maker
  {
    ExecutionsAre(taker, trades);
    var middle := Executions(taker, trades);
    InOrderConcat([first], middle);
    InOrderConcat([first] + middle, more);
  }

  /** The incoming order gets to no second order at one price, but for orders with the same timestamp. */
  ghost predicate OneEach(incoming: Order, s: seq<Order>) {
    forall i, j :: 0 <= i < j < |s| && s[i].price == s[j].price ==>
      (Share(incoming, s, j) > 0 ==> s[i].Timestamp() == s[j].Timestamp())
  }

  /** The orders that trade are those with a share. */
  lemma TakenHaveShares(less: Comparator, incoming: Order, q: Queue, r: MatchResult)
    requires IsAllocation(less, incoming, q, r)
    ensures |r.trades| <= |q.items| && forall i :: 0 <= i < |r.trades| ==> r.trades[i].maker == q.items[i]
    ensures forall j :: 0 <= j < |q.items| ==> (Share(incoming, q.items, j) > 0 <==> j < |r.trades|)
  {
    forall j | 0 <= j < |q.items|
      ensures Share(incoming, q.items, j) > 0 <==> j < |r.trades|
    {
      assert TradeVolumeAt(r.trades, j) == Share(incoming, q.items, j);
    }
  }

  lemma OneEachOfTaken(side: Side, incoming: Order, s: seq<Order>, n: nat)
    requires Sorted(AsWritten(side), s) && n <= |s|
    requires forall j :: 0 <= j < |s| ==> (Share(incoming, s, j) > 0 <==> j < n)
    ensures OneEach(incoming, s) <==>
      forall i, j :: 0 <= i < j < n && s[i].price == s[j].price ==> s[i].Timestamp() <= s[j].Timestamp()
  {
    forall i, j | 0 <= i < j < |s| && s[i].price == s[j].price
      ensures s[j].Timestamp() <= s[i].Timestamp()
    {
      assert !AsWritten(side)(s[j], s[i]);
    }
  }

  lemma SameSides(side: Side, s: seq<Order>)
    requires OneSided(side, s)
    ensures forall i, j :: 0 <= i < |s| && 0 <= j < |s| ==> s[i].side == s[j].side
  {
    forall i | 0 <= i < |s|
      ensures s[i].side == side
    {
      assert s[i] in s;
    }
  }

  lemma AllocationInIssueOrder(side: Side, less: Comparator, incoming: Order, q: Queue, r: MatchResult)
    requires IsAllocation(less, incoming, q, r) && Sorted(AsWritten(side), q.items) && OneSided(side, q.items)
    ensures InIssueOrder(Executions(incoming, r.trades)) <==> OneEach(incoming, q.items)
  {
    TakenHaveShares(less, incoming, q, r);
    SameSides(side, q.items);
    ExecutionsOfTaken(incoming, q.items, r.trades);
    OneEachOfTaken(side, incoming, q.items, |r.trades|);
  }

  /** As written, a match trades in order of issue exactly when there is no more than one to trade with at a price. */
  lemma AsWrittenMatchInIssueOrder(side: Side, incoming: Order, q: Queue)
    requires incoming.side == side.Opposite() && incoming.IsValid()
    requires Sorted(AsWritten(side), q.items) && AllValid(q.items) && OneSided(side, q.items)
    ensures InIssueOrder(Executions(incoming, Match(AsWritten(side), incoming, q).trades)) <==>
      OneEach(incoming, q.items)
  {
    BothComparatorsArePriceFirst(side);
    MatchIsAllocation(side, AsWritten(side), incoming, q);
    AllocationInIssueOrder(side, AsWritten(side), incoming, q, Match(AsWritten(side), incoming, q));
  }

  lemma ExecutionsOfTaken(taker: Order, s: seq<Order>, trades: seq<Trade>)
    requires |trades| <= |s| && (forall i :: 0 <= i < |trades| ==> trades[i].maker == s[i])
    requires forall i, j :: 0 <= i < |s| && 0 <= j < |s| ==> s[i].side == s[j].side
    ensures InIssueOrder(Executions(taker, trades)) <==>
      forall i, j :: 0 <= i < j < |trades| && s[i].price == s[j].price ==> s[i].Timestamp() <= s[j].Timestamp()
  {
    var events := Executions(taker, trades);
    ExecutionsAre(taker, trades);
    assert forall i :: 0 <= i < |trades| ==> events[i].Executed? && events[i].maker == s[i];
    if InIssueOrder(events) {
      forall i, j | 0 <= i < j < |trades| && s[i].price == s[j].price
        ensures s[i].Timestamp() <= s[j].Timestamp()
      {
        assert SameLevel(events[i].maker, events[j].maker);
      }
    }
  }

  lemma EntryEvents(R: Rules, b: Book, order: Order)
    requires Tradable(b) && order.IsValid() && CanCross(b, order)
    ensures var other := order.side.Opposite();
      var m := Match(R.For(other), order, b.For(other));
      NewOrder(R, b, order).events
        == [Accepted(order)] + Executions(order, m.trades)
           + if m.incoming.volume == 0 then [] else [RestedResidue(m.incoming)]
  {
  }

  /** An order that enters in time. */
  lemma EntryInOrder(R: Rules, b: Book, order: Order)
    requires R.Ok() && BookInv(R, b) && Tradable(b) && EntryInTime(R, b, order)
    ensures var r := NewOrder(R, b, order);
      InIssueOrder(r.events) && forall e :: e in r.events && e.Executed? ==> AllRest(NotBefore(e.maker), r.book)
  {
    if order.IsValid() && CanCross(b, order) {
      var other := order.side.Opposite();
      SideIsSorted(R, b, other);
      SideIsSorted(R, b, order.side);
      MatchInOrder(other, R.For(other), order, b.For(other));
      EntryEvents(R, b, order);
      EntryAfterMatch(R, b, order, Match(R.For(other), order, b.For(other)), NewOrder(R, b, order).events);
    }
  }

  lemma EntryAfterMatch(R: Rules, b: Book, order: Order, m: MatchResult, events: seq<Event>)
    requires Tradable(b) && order.IsValid() && CanCross(b, order) && OneSided(order.side, b.For(order.side).items)
    requires m == Match(R.For(order.side.Opposite()), order, b.For(order.side.Opposite())) && TradesInOrder(m)
    requires forall t :: t in m.trades ==> t.maker.side == order.side.Opposite()
    requires events == [Accepted(order)] + Executions(order, m.trades)
                       + if m.incoming.volume == 0 then [] else [RestedResidue(m.incoming)]
    ensures InIssueOrder(events)
    ensures forall e :: e in events && e.Executed? ==> AllRest(NotBefore(e.maker), NewOrder(R, b, order).book)
  {
    ExecutionsInOrder(order, m.trades, events, Accepted(order),
                      if m.incoming.volume == 0 then [] else [RestedResidue(m.incoming)]);
    forall e | e in events && e.Executed?
      ensures AllRest(NotBefore(e.maker), NewOrder(R, b, order).book)
    {
      var i :| 0 <= i < |m.trades| && m.trades[i].maker == e.maker;
      assert m.trades[i] in m.trades;
      OtherSideStays(R, b, order, m, e.maker);
    }
  }

  lemma OtherSideStays(R: Rules, b: Book, order: Order, m: MatchResult, maker: Order)
    requires Tradable(b) && order.IsValid() && CanCross(b, order)
    requires m == Match(R.For(order.side.Opposite()), order, b.For(order.side.Opposite()))
    requires OneSided(order.side, b.For(order.side).items) && maker.side == order.side.Opposite()
    requires All(NotBefore(maker), m.queue.items)
    ensures AllRest(NotBefore(maker), NewOrder(R, b, order).book)
  {
    var r, traded := NewOrder(R, b, order).book, b.With(order.side.Opposite(), m.queue);
    PushOwnMembers(R, traded, m.incoming);
    assert All(NotBefore(maker), r.For(order.side.Opposite()).items);
    assert All(NotBefore(maker), r.For(order.side).items);
  }

  lemma StepInOrder(R: Rules, b: Book, c: Command)
    requires R.Ok() && BookInv(R, b) && Tradable(b)
    requires Entering(b, c).Some? ==> EntryInTime(R, Entering(b, c).value.0, Entering(b, c).value.1)
    ensures var r := Step(R, b, c);
      InIssueOrder(r.events) && forall e :: e in r.events && e.Executed? ==> AllRest(NotBefore(e.maker), r.book)
  {
    EnteringKeepsInv(R, b, c);
    match c {
      case New(order) => EntryInOrder(R, b, order);
      case Cancel(id) =>
      case Modify(id, price, volume, draw) =>
        if id in b.buys.index {
          var cancelled := CancelOrder(b, id);
          EntryInOrder(R, cancelled.book, Entering(b, c).value.1);
          InOrderConcat(cancelled.events, NewOrder(R, cancelled.book, Entering(b, c).value.1).events);
        }
    }
  }

  lemma MakerIsSeparated(R: Rules, b: Book, m: Order, rest: seq<Command>, x: nat)
    requires Tradable(b) && AllRest(NotBefore(m), b) && m.Timestamp() <= x && StampsFrom(x, rest)
    ensures AllMakers(NotBefore(m), Run(R, b, rest).events)
  {
    RunHasProperty(NotBefore(m), R, b, rest, x);
  }

  /** What comes after a command trades no order older than one that has traded at its level. */
  lemma RestIsSeparated(R: Rules, r: Outcome, rest: seq<Command>, x: nat)
    requires Tradable(r.book) && AllMakers(UpTo(x), r.events) && StampsFrom(x, rest)
    requires forall e :: e in r.events && e.Executed? ==> AllRest(NotBefore(e.maker), r.book)
    ensures Separates(r.events, Run(R, r.book, rest).events)
  {
    forall e | e in r.events && e.Executed?
      ensures AllMakers(NotBefore(e.maker), Run(R, r.book, rest).events)
    {
      assert UpTo(x)(e.maker);
      MakerIsSeparated(R, r.book, e.maker, rest, x);
    }
  }

  lemma StepIsStamped(R: Rules, b: Book, c: Command, x: nat)
    requires Tradable(b) && AllRest(UpTo(x), b) && StampsFrom(x, [c])
    ensures AllRest(UpTo(NextStamp(x, c)), Step(R, b, c).book) && AllMakers(UpTo(NextStamp(x, c)), Step(R, b, c).events)
  {
    if Entering(b, c).Some? {
      EnteringIsStamped(b, c);
    }
    assert AllRest(UpTo(NextStamp(x, c)), b);
    StepHasProperty(UpTo(NextStamp(x, c)), R, b, c);
  }

  /** In a run that keeps time priority at every command, with timestamps that do not decrease, the orders of one price
      level trade in order of issue, from the first command to the last, whatever the comparators. */
  lemma {:induction false} RunInOrder(R: Rules, b: Book, commands: seq<Command>, x: nat)
    requires R.Ok() && BookInv(R, b) && Tradable(b) && RunInTime(R, b, commands)
    requires AllRest(UpTo(x), b) && StampsFrom(x, commands)
    ensures InIssueOrder(Run(R, b, commands).events)
    decreases |commands|
  {
    if commands != [] {
      var c, r, rest := commands[0], Step(R, b, commands[0]), commands[1..];
      StepIsStamped(R, b, c, x);
      StepInOrder(R, b, c);
      StepKeepsInv(R, b, c);
      RunInOrder(R, r.book, rest, NextStamp(x, c));
      RestIsSeparated(R, r, rest, NextStamp(x, c));
      InOrderConcat(r.events, Run(R, r.book, rest).events);
    }
  }

  // ----- Orders from one sequencer -----

  /** Command k carries the draw with number numbers[k], if it carries one; the numbers do not decrease, and the low 32
      bits of the draws do not wrap on the way. */
  ghost predicate FromSequencer(epoch: uint64, numbers: seq<nat>, commands: seq<Command>) {
    && |numbers| == |commands|
    && (forall i, j :: 0 <= i < j < |numbers| ==> numbers[i] <= numbers[j])
    && (forall i, j :: 0 <= i <= j < |numbers| ==> (epoch + numbers[i]) % TWO_32 + (numbers[j] - numbers[i]) < TWO_32)
    && (forall k :: 0 <= k < |commands| ==> Carries(commands[k], DrawAt(epoch, numbers[k])))
  }

  ghost predicate Carries(c: Command, draw: uint64) {
    match c
    case New(order) => exists r: Request :: order == NewOrderValue(r.id, r.price, r.volume, r.side, r.client, draw)
    case Cancel(_) => true
    case Modify(_, _, _, d) => d == draw
  }

  lemma CarriedStamp(c: Command, epoch: uint64, n: nat)
    requires Carries(c, DrawAt(epoch, n))
    ensures Stamp(c).Some? ==> Stamp(c).value == (epoch + n) % TWO_32
  {
    TimestampOfDraw(epoch, n, Request(0, 0, 0, Buy, ""));
    PackUnpack(0, DrawAt(epoch, n) % TWO_32, 0);
    if c.New? {
      var r: Request :| c.order == NewOrderValue(r.id, r.price, r.volume, r.side, r.client, DrawAt(epoch, n));
      PackUnpack(r.id, DrawAt(epoch, n) % TWO_32, 0);
    }
  }

  lemma RestFromSequencer(epoch: uint64, numbers: seq<nat>, commands: seq<Command>)
    requires FromSequencer(epoch, numbers, commands) && commands != []
    ensures FromSequencer(epoch, numbers[1..], commands[1..])
    ensures |commands| > 1 ==> (epoch + numbers[0]) % TWO_32 <= (epoch + numbers[1]) % TWO_32
  {
    assert forall k :: 0 <= k < |numbers[1..]| ==>
      numbers[1..][k] == numbers[k + 1] && commands[1..][k] == commands[k + 1];
    if |commands| > 1 {
      NoWrap(epoch + numbers[0], numbers[1] - numbers[0], TWO_32);
    }
  }

  lemma {:induction false} SequencedStamps(epoch: uint64, numbers: seq<nat>, commands: seq<Command>, x: nat)
    requires FromSequencer(epoch, numbers, commands)
    requires commands != [] ==> x <= (epoch + numbers[0]) % TWO_32
    ensures StampsFrom(x, commands)
    decreases |commands|
  {
    if commands != [] {
      assert Stamp(commands[0]).Some? ==> Stamp(commands[0]).value == (epoch + numbers[0]) % TWO_32 by {
        assert Carries(commands[0], DrawAt(epoch, numbers[0]));
        CarriedStamp(commands[0], epoch, numbers[0]);
      }
      RestFromSequencer(epoch, numbers, commands);
      SequencedStamps(epoch, numbers[1..], commands[1..], NextStamp(x, commands[0]));
    }
  }

  /** First in, first out: when orders and modifications draw from one sequencer that does not wrap, the orders at any
      one price trade, over the whole run, in the order in which they were issued. */
  lemma FifoTradesInIssueOrder(epoch: uint64, numbers: seq<nat>, commands: seq<Command>)
    requires FromSequencer(epoch, numbers, commands)
    ensures InIssueOrder(Run(FIRST_IN_FIRST_OUT, EmptyBook, commands).events)
  {
    BothRulesAreOk();
    SequencedStamps(epoch, numbers, commands, 0);
    FifoRunIsInTime(EmptyBook, commands);
    RunInOrder(FIRST_IN_FIRST_OUT, EmptyBook, commands, 0);
  }

  /** As written they do if every order that trades is alone at its price at that moment, but for equal timestamps. */
  lemma AsWrittenTradesInIssueOrder(epoch: uint64, numbers: seq<nat>, commands: seq<Command>)
    requires FromSequencer(epoch, numbers, commands) && RunAlike(AS_WRITTEN, EmptyBook, commands)
    ensures InIssueOrder(Run(AS_WRITTEN, EmptyBook, commands).events)
  {
    BothRulesAreOk();
    SequencedStamps(epoch, numbers, commands, 0);
    AsWrittenRunIsInTimeIfAlike(EmptyBook, commands);
    RunInOrder(AS_WRITTEN, EmptyBook, commands, 0);
  }

  // ----- A run in which the newer order trades first -----

  const OLDER := Order(Pack(1, 5), 100, 10, Buy, "a")
  const NEWER := Order(Pack(2, 6), 100, 10, Buy, "b")
  const SELLER := Order(Pack(3, 7), 100, 20, Sell, "c")

  lemma StampsOfExample()
    ensures OLDER.Timestamp() == 5 && NEWER.Timestamp() == 6
  {
    PackUnpack(1, 5, 0);
    PackUnpack(2, 6, 0);
  }

  /** Two bids at one price, pushed in order of issue. */
  lemma NewerGoesInFront()
    ensures ApplyAll(AsWritten(Buy), EmptyQueue, [DoPush(OLDER), DoPush(NEWER)]).items == [NEWER, OLDER]
    ensures ApplyAll(Fifo(Buy), EmptyQueue, [DoPush(OLDER), DoPush(NEWER)]).items == [OLDER, NEWER]
  {
    StampsOfExample();
    var ops := [DoPush(OLDER), DoPush(NEWER)];
    assert ops[..1] == [DoPush(OLDER)] && ops[..1][..0] == [];
    forall less: Comparator
      ensures ApplyAll(less, EmptyQueue, ops) == Push(less, Push(less, EmptyQueue, OLDER), NEWER)
    {
      assert ApplyAll(less, EmptyQueue, ops[..1]) == Push(less, ApplyAll(less, EmptyQueue, []), OLDER);
    }
    assert [OLDER][1..] == [];
    assert Insert(Fifo(Buy), [OLDER], NEWER) == [OLDER] + Insert(Fifo(Buy), [], NEWER);
  }

  /** What the seller then takes from a queue with these two bids in front, in this order. */
  lemma SellerTakesInTurn(less: Comparator, q: Queue, first: Order, second: Order)
    requires q.items == [first, second] && {first, second} == {OLDER, NEWER}
    ensures Match(less, SELLER, q).trades == [Trade(first, 10), Trade(second, 10)]
    ensures Match(less, SELLER, q).incoming.volume == 0
  {
    assert first.IsValid() && second.IsValid();
    var q1 := AfterTrade(less, q, 10);
    assert q1 == Pop(q) && q1.items == [second];
    var q2, half, none := AfterTrade(less, q1, 10), SELLER.(volume := 10), SELLER.(volume := 0);
    assert q2 == Pop(q1) && q2.items == [];
    assert Match(less, none, q2).trades == [];
    assert Match(less, half, q1).trades == [Trade(second, 10)] + Match(less, none, q2).trades;
    assert Match(less, SELLER, q).trades == [Trade(first, 10)] + Match(less, half, q1).trades;
  }

  function BidsEvents(): seq<Event> {
    [Accepted(OLDER), Rested(OLDER)] + [Accepted(NEWER), Rested(NEWER)]
  }

  function SellerEvents(first: Order, second: Order): seq<Event> {
    [Accepted(SELLER), Executed(SELLER, first, 10), Executed(SELLER, second, 10)]
  }

  lemma BidsRest(R: Rules)
    ensures var t := Run(R, EmptyBook, [New(OLDER), New(NEWER)]);
      && t.events == BidsEvents() && t.book.sells == EmptyQueue
      && t.book.buys == ApplyAll(R.buy, EmptyQueue, [DoPush(OLDER), DoPush(NEWER)])
  {
    var commands, ops := [New(OLDER), New(NEWER)], [DoPush(OLDER), DoPush(NEWER)];
    assert commands[1..] == [New(NEWER)] && commands[1..][1..] == [];
    assert ops[..1] == [DoPush(OLDER)] && ops[..1][..0] == [];
    var one := NewOrder(R, EmptyBook, OLDER);
    var two := NewOrder(R, one.book, NEWER);
    assert one.book.buys == Push(R.buy, EmptyQueue, OLDER) == ApplyAll(R.buy, EmptyQueue, ops[..1]);
    assert one.events == [Accepted(OLDER), Rested(OLDER)] && two.events == [Accepted(NEWER), Rested(NEWER)];
    assert Run(R, one.book, [New(NEWER)]) == Prepend(two, Trace(two.book, [], []));
    assert two.events + [] == two.events;
  }

  lemma SellerTrades(R: Rules, b: Book, first: Order, second: Order)
    requires Tradable(b) && b.buys.items == [first, second] && {first, second} == {OLDER, NEWER}
    ensures Run(R, b, [New(SELLER)]).events == SellerEvents(first, second)
  {
    SellerTakesInTurn(R.buy, b.buys, first, second);
    var trades := [Trade(first, 10), Trade(second, 10)];
    ExecutionsAre(SELLER, trades);
    assert Executions(SELLER, trades) == [Executed(SELLER, first, 10), Executed(SELLER, second, 10)];
    assert [New(SELLER)][1..] == [];
    assert NewOrder(R, b, SELLER).events == SellerEvents(first, second);
    assert SellerEvents(first, second) + [] == SellerEvents(first, second);
  }

  lemma BothTrade(R: Rules, first: Order, second: Order)
    requires ApplyAll(R.buy, EmptyQueue, [DoPush(OLDER), DoPush(NEWER)]).items == [first, second]
    requires {first, second} == {OLDER, NEWER}
    ensures Run(R, EmptyBook, [New(OLDER), New(NEWER)] + [New(SELLER)]).events
         == BidsEvents() + SellerEvents(first, second)
  {
    BidsRest(R);
    var b := Run(R, EmptyBook, [New(OLDER), New(NEWER)]).book;
    RunConcat(R, EmptyBook, [New(OLDER), New(NEWER)], [New(SELLER)]);
    SellerTrades(R, b, first, second);
  }

  /** A seller who takes both: as written, the newer order trades before the older one, which was there first at the
      same price; first in, first out, it is the other way round. */
  lemma NewerTradesFirst()
    ensures var commands := [New(OLDER), New(NEWER)] + [New(SELLER)];
      var events := Run(AS_WRITTEN, EmptyBook, commands).events;
      && events == BidsEvents() + SellerEvents(NEWER, OLDER) && !InIssueOrder(events)
      && Run(FIRST_IN_FIRST_OUT, EmptyBook, commands).events == BidsEvents() + SellerEvents(OLDER, NEWER)
  {
    NewerGoesInFront();
    BothTrade(AS_WRITTEN, NEWER, OLDER);
    BothTrade(FIRST_IN_FIRST_OUT, OLDER, NEWER);
    StampsOfExample();
    var events := BidsEvents() + SellerEvents(NEWER, OLDER);
    assert events[5] == Executed(SELLER, NEWER, 10) && events[6] == Executed(SELLER, OLDER, 10);
  }
}
