/** The order book with `pop` as the code writes it, which takes the identifier of the popped order through an `int`
    (core/OrderBook.hpp:95-96, core/OrderBook.cpp:26-84): what this changes in a match, in a command and in a run, and
    exactly when it changes nothing. */
module CodedBooks {
  import opened Orders
  import opened OrderQueues
  import opened PopNarrowing
  import opened Matching
  import opened OrderBooks
  import opened TimePriority

  // ----- The matching loop -----

  function CodedAfterTrade(less: Comparator, q: Queue, volume: nat): (r: Queue)
    requires q.items != [] && volume <= q.items[0].volume && AllValid(q.items)
    ensures r.items == AfterTrade(less, q, volume).items
  {
    var rest, left := CodedPop(q), Reduced(q.items[0], volume);
    if left.IsValid() then Push(less, rest, left) else rest
  }

  function CodedMatch(less: Comparator, incoming: Order, q: Queue): (r: MatchResult)
    requires AllValid(q.items)
    decreases incoming.volume
  {
    if !CanTrade(incoming, q) then
      MatchResult(incoming, q, [])
    else
      var best := q.items[0];
      assert best in q.items;
      var volume := Min(incoming.volume, best.volume);
      var r := CodedMatch(less, Reduced(incoming, volume), CodedAfterTrade(less, q, volume));
      r.(trades := [Trade(best, volume)] + r.trades)
  }

  /** The index plays no part in what is traded and in what is left. */
  lemma {:induction false} SameTrades(less: Comparator, incoming: Order, c: Queue, q: Queue)
    requires c.items == q.items && AllValid(q.items)
    ensures var r, r' := CodedMatch(less, incoming, c), Match(less, incoming, q);
      r.incoming == r'.incoming && r.trades == r'.trades && r.queue.items == r'.queue.items
    decreases incoming.volume
  {
    if CanTrade(incoming, q) {
      assert q.items[0] in q.items;
      var volume := Min(incoming.volume, q.items[0].volume);
      SameTrades(less, Reduced(incoming, volume), CodedAfterTrade(less, c, volume), AfterTrade(less, q, volume));
    }
  }

  /** An index entry whose order has gone, and which no pop will ever erase. */
  ghost predicate Stale(q: Queue, id: uint64) {
    id in q.index && !FitsInt(id) && NoId(q.items, id)
  }

  lemma StaleDisagrees(q: Queue, id: uint64)
    requires Stale(q, id)
    ensures !Agrees(q)
  {
  }

  lemma NarrowFits(id: uint64)
    ensures FitsInt(Narrow(id))
  {
  }

  /** A stale entry stays. */
  lemma StaleAfterTrade(less: Comparator, q: Queue, volume: nat, id: uint64)
    requires q.items != [] && volume <= q.items[0].volume && AllValid(q.items) && Stale(q, id)
    ensures Stale(CodedAfterTrade(less, q, volume), id)
  {
    var rest, left := CodedPop(q), Reduced(q.items[0], volume);
    NarrowFits(q.items[0].id);
    assert q.items[0].id != id;
    assert forall k :: 0 <= k < |rest.items| ==> rest.items[k] == q.items[k + 1];
    InsertMembers(less, rest.items, left);
    var items := Insert(less, rest.items, left);
    forall k | 0 <= k < |items|
      ensures items[k].id != id
    {
      assert items[k] in items;
    }
  }

  lemma {:induction false} StaleStays(less: Comparator, incoming: Order, q: Queue, id: uint64)
    requires AllValid(q.items) && Stale(q, id)
    ensures Stale(CodedMatch(less, incoming, q).queue, id)
    decreases incoming.volume
  {
    if CanTrade(incoming, q) {
      assert q.items[0] in q.items;
      var volume := Min(incoming.volume, q.items[0].volume);
      StaleAfterTrade(less, q, volume, id);
      StaleStays(less, Reduced(incoming, volume), CodedAfterTrade(less, q, volume), id);
    }
  }

  /** A maker that is filled must have an identifier that fits an `int`. One that goes back with what it has left is
      indexed again; there it is enough that the narrowed key is not that of another resting order. */
  ghost predicate TradeFits(t: Trade, left: Queue) {
    FitsInt(t.maker.id) || (t.volume < t.maker.volume && Narrow(t.maker.id) !in left.index)
  }

  ghost predicate MatchFits(r: MatchResult) {
    forall t :: t in r.trades ==> TradeFits(t, r.queue)
  }

  /** A maker that is filled. */
  lemma FilledMakerFits(less: Comparator, q: Queue)
    requires Agrees(q) && AllValid(q.items) && q.items != []
    ensures var best := q.items[0];
      && AfterTrade(less, q, best.volume) == Pop(q) && CodedAfterTrade(less, q, best.volume) == CodedPop(q)
      && (FitsInt(best.id) ==> CodedPop(q) == Pop(q) && Agrees(Pop(q)))
      && (!FitsInt(best.id) ==> Stale(CodedPop(q), best.id))
  {
    CodedPopAgrees(q);
    PopAgrees(q);
    DistinctTail(q.items);
  }

  /** The two queues after a maker has been reduced and put back differ in their index only. */
  lemma ReducedMaker(less: Comparator, q: Queue, volume: nat)
    requires Agrees(q) && AllValid(q.items) && q.items != [] && volume < q.items[0].volume
    ensures var best, left := q.items[0], Reduced(q.items[0], volume);
      var q', c := AfterTrade(less, q, volume), CodedAfterTrade(less, q, volume);
      && Agrees(q') && q'.index == q.index[best.id := left]
      && c == Queue(q'.items, (q.index - {Narrow(best.id)})[best.id := left])
  {
    assert q.items[0] in q.items;
    PopAgrees(q);
    PushAgrees(less, Pop(q), Reduced(q.items[0], volume));
    assert (q.index - {q.items[0].id})[q.items[0].id := Reduced(q.items[0], volume)]
        == q.index[q.items[0].id := Reduced(q.items[0], volume)];
  }

  /** Erasing a key before another is set leaves the same index exactly when the key is that one or is not there. */
  lemma ErasedAndSet(index: map<uint64, Order>, id: uint64, key: uint64, o: Order)
    ensures (index - {key})[id := o] == index[id := o] <==> key == id || key !in index
  {
    if key != id && key in index {
      assert key in index[id := o] && key !in (index - {key})[id := o];
    } else {
      assert (index - {key})[id := o] == index[id := o];
    }
  }

  /** One index that is a bijection onto these elements is the only one. */
  lemma OneIndex(q: Queue, c: Queue)
    requires Agrees(q) && c.items == q.items
    ensures Agrees(c) <==> c.index == q.index
  {
    if Agrees(c) {
      forall id
        ensures id in c.index ==> id in q.index && q.index[id] == c.index[id]
        ensures id in q.index ==> id in c.index
      {
      }
    }
  }

  lemma ReducedMakerFits(less: Comparator, q: Queue, volume: nat)
    requires Agrees(q) && AllValid(q.items) && q.items != [] && volume < q.items[0].volume
    ensures var t, q', c := Trade(q.items[0], volume), AfterTrade(less, q, volume), CodedAfterTrade(less, q, volume);
      && Agrees(q') && (Agrees(c) <==> TradeFits(t, q')) && (TradeFits(t, q') ==> c == q')
  {
    var best := q.items[0];
    NarrowKeepsExactly(best.id);
    ReducedMaker(less, q, volume);
    ErasedAndSet(q.index, best.id, Narrow(best.id), Reduced(best, volume));
    OneIndex(AfterTrade(less, q, volume), CodedAfterTrade(less, q, volume));
  }

  /** On a queue whose index is a bijection, the coded loop trades as the intended one, and it keeps the index exactly
      when every maker is safe; then it is the intended loop. */
  lemma {:induction false} CodedMatchAgrees(less: Comparator, incoming: Order, q: Queue)
    requires Agrees(q) && AllValid(q.items)
    ensures var r, r' := CodedMatch(less, incoming, q), Match(less, incoming, q);
      && r.incoming == r'.incoming && r.trades == r'.trades && r.queue.items == r'.queue.items
      && Agrees(r'.queue)
      && (Agrees(r.queue) <==> MatchFits(r'))
      && (MatchFits(r') ==> r == r')
    decreases incoming.volume
  {
    SameTrades(less, incoming, q, q);
    if CanTrade(incoming, q) {
      var best, volume := q.items[0], Min(incoming.volume, q.items[0].volume);
      assert best in q.items;
      var incoming', q', c := Reduced(incoming, volume), AfterTrade(less, q, volume), CodedAfterTrade(less, q, volume);
      var rest := Match(less, incoming', q');
      FitsFirst(Trade(best, volume), rest);
      if volume < best.volume {
        ReducedMakerFits(less, q, volume);
        assert rest == MatchResult(incoming', q', []);
        assert CodedMatch(less, incoming', c) == MatchResult(incoming', c, []);
      } else {
        FilledMakerFits(less, q);
        PopAgrees(q);
        CodedMatchAgrees(less, incoming', q');
        if !FitsInt(best.id) {
          StaleStays(less, incoming', c, best.id);
          StaleDisagrees(CodedMatch(less, incoming', c).queue, best.id);
        }
      }
    }
  }

  lemma FitsFirst(t: Trade, rest: MatchResult)
    ensures MatchFits(rest.(trades := [t] + rest.trades)) <==> TradeFits(t, rest.queue) && MatchFits(rest)
  {
    var all := [t] + rest.trades;
    assert all[0] == t && forall u :: u in all <==> u == t || u in rest.trades;
  }

  // ----- The operations of the book -----

  function CodedMatchOrder(R: Rules, b: Book, incoming: Order): (r: Outcome)
    requires Tradable(b)
    ensures Tradable(r.book)
  {
    if !incoming.IsValid() then
      Outcome(b, REJECTED, [])
    else
      var other := incoming.side.Opposite();
      SameTrades(R.For(other), incoming, b.For(other), b.For(other));
      var m := CodedMatch(R.For(other), incoming, b.For(other));
      var traded := b.With(other, m.queue);
      var events := Executions(incoming, m.trades);
      if m.incoming.volume == 0 then Outcome(traded, FULLY_FILLED, events)
      else Outcome(PushOwn(R, traded, m.incoming), PARTIALLY_FILLED, events + [RestedResidue(m.incoming)])
  }

  function CodedNewOrder(R: Rules, b: Book, order: Order): (r: Outcome)
    requires Tradable(b)
    ensures Tradable(r.book)
  {
    if order.IsValid() && CanCross(b, order) then
      var m := CodedMatchOrder(R, b, order);
      Outcome(m.book, m.flags | ACCEPTED, [Accepted(order)] + m.events)
    else
      NewOrder(R, b, order)
  }

  function CodedModifyOrder(R: Rules, b: Book, id: uint64, price: uint32, volume: uint32, draw: uint64): (r: Outcome)
    requires Tradable(b)
    ensures Tradable(r.book)
  {
    if id !in b.buys.index then
      Outcome(b, REJECTED, [])
    else
      var c := CancelOrder(b, id);
      var n := CodedNewOrder(R, c.book, Replacement(b.buys.index[id], price, volume, draw));
      Outcome(n.book, c.flags | n.flags, c.events + n.events)
  }

  function CodedStep(R: Rules, b: Book, c: Command): (r: Outcome)
    requires Tradable(b)
    ensures Tradable(r.book)
  {
    match c
    case New(order) => CodedNewOrder(R, b, order)
    case Cancel(id) => CancelOrder(b, id)
    case Modify(id, price, volume, draw) => CodedModifyOrder(R, b, id, price, volume, draw)
  }

  function CodedRun(R: Rules, b: Book, commands: seq<Command>): (t: Trace)
    requires Tradable(b)
    ensures Tradable(t.book)
    decreases |commands|
  {
    if commands == [] then
      Trace(b, [], [])
    else
      var first := CodedStep(R, b, commands[0]);
      Prepend(first, CodedRun(R, first.book, commands[1..]))
  }

  // ----- When the book keeps its indices -----

  /** On both sides the index is a bijection onto the resting orders. */
  ghost predicate BookAgrees(b: Book) {
    Agrees(b.buys) && Agrees(b.sells)
  }

  /** The same but for what the indices say. */
  predicate SameButIndex(c: Book, b: Book) {
    c.buys.items == b.buys.items && c.sells.items == b.sells.items && c.volumes == b.volumes
  }

  /** No order with this identifier rests on the side on which this one may come to rest. */
  ghost predicate FreshEntry(b: Book, order: Order) {
    order.IsValid() ==> order.id !in b.For(order.side).index
  }

  /** Every maker that the order meets is safe. */
  ghost predicate EntryFits(R: Rules, b: Book, order: Order)
    requires Tradable(b)
  {
    var other := order.side.Opposite();
    order.IsValid() && CanCross(b, order) ==> MatchFits(Match(R.For(other), order, b.For(other)))
  }

  /** What it takes to put a queue in the place of one side of the book. */
  lemma OneSideChanged(b: Book, side: Side, c: Queue, q: Queue)
    requires Agrees(b.For(side.Opposite())) && Agrees(q) && c.items == q.items
    ensures BookAgrees(b.With(side, q)) && SameButIndex(b.With(side, c), b.With(side, q))
    ensures BookAgrees(b.With(side, c)) <==> Agrees(c)
  {
  }

  lemma OwnSidePushed(R: Rules, c: Book, b: Book, o: Order)
    requires Tradable(b) && Tradable(c) && SameButIndex(c, b) && o.IsValid() && c.For(o.side) == b.For(o.side)
    requires Agrees(b.For(o.side)) && o.id !in b.For(o.side).index
    ensures SameButIndex(PushOwn(R, c, o), PushOwn(R, b, o))
    ensures BookAgrees(PushOwn(R, c, o)) <==> BookAgrees(c)
    ensures BookAgrees(PushOwn(R, b, o)) <==> BookAgrees(b)
  {
    PushAgrees(R.For(o.side), b.For(o.side), o);
  }

  lemma MatchOrderAgrees(R: Rules, b: Book, order: Order)
    requires Tradable(b) && BookAgrees(b) && order.IsValid() && FreshEntry(b, order)
    ensures var r, r' := CodedMatchOrder(R, b, order), MatchOrder(R, b, order);
      var other := order.side.Opposite();
      var fits := MatchFits(Match(R.For(other), order, b.For(other)));
      && r.flags == r'.flags && r.events == r'.events && SameButIndex(r.book, r'.book)
      && BookAgrees(r'.book) && (BookAgrees(r.book) <==> fits) && (fits ==> r == r')
  {
    var side, other := order.side, order.side.Opposite();
    assert Agrees(b.For(side)) && Agrees(b.For(other));
    CodedMatchAgrees(R.For(other), order, b.For(other));
    var m, m' := CodedMatch(R.For(other), order, b.For(other)), Match(R.For(other), order, b.For(other));
    OneSideChanged(b, other, m.queue, m'.queue);
    if m'.incoming.volume != 0 {
      OwnSidePushed(R, b.With(other, m.queue), b.With(other, m'.queue), m'.incoming);
    }
  }

  /** A new order whose identifier does not rest on its own side: the coded book returns the same flags, trades the same
      orders and keeps the same ones at rest, always; its indices stay bijections exactly when every maker is safe; and
      then it is the intended book. */
  lemma NewOrderAgrees(R: Rules, b: Book, order: Order)
    requires Tradable(b) && BookAgrees(b) && FreshEntry(b, order)
    ensures var r, r' := CodedNewOrder(R, b, order), NewOrder(R, b, order);
      && r.flags == r'.flags && r.events == r'.events && SameButIndex(r.book, r'.book)
      && BookAgrees(r'.book)
      && (BookAgrees(r.book) <==> EntryFits(R, b, order))
      && (EntryFits(R, b, order) ==> r == r')
  {
    if order.IsValid() {
      if CanCross(b, order) {
        MatchOrderAgrees(R, b, order);
      } else {
        assert Agrees(b.For(order.side));
        OwnSidePushed(R, b, b, order);
      }
    }
  }

  lemma CancelAgrees(b: Book, id: uint64)
    requires Tradable(b) && BookAgrees(b)
    ensures BookAgrees(CancelOrder(b, id).book)
  {
    RemoveAgrees(b.buys, id);
    RemoveAgrees(b.sells, id);
  }

  // ----- Runs -----

  ghost predicate CommandFresh(R: Rules, b: Book, c: Command)
    requires Tradable(b)
  {
    match c
    case New(order) => FreshEntry(b, order)
    case Cancel(_) => true
    case Modify(id, price, volume, draw) =>
      id in b.buys.index ==>
        FreshEntry(CancelOrder(b, id).book, Replacement(b.buys.index[id], price, volume, draw))
  }

  ghost predicate CommandFits(R: Rules, b: Book, c: Command)
    requires Tradable(b)
  {
    match c
    case New(order) => EntryFits(R, b, order)
    case Cancel(_) => true
    case Modify(id, price, volume, draw) =>
      id in b.buys.index ==>
        EntryFits(R, CancelOrder(b, id).book, Replacement(b.buys.index[id], price, volume, draw))
  }

  lemma CodedStepAgrees(R: Rules, b: Book, c: Command)
    requires Tradable(b) && BookAgrees(b) && CommandFresh(R, b, c)
    ensures var r, r' := CodedStep(R, b, c), Step(R, b, c);
      && r.flags == r'.flags && r.events == r'.events && SameButIndex(r.book, r'.book)
      && BookAgrees(r'.book)
      && (BookAgrees(r.book) <==> CommandFits(R, b, c))
      && (CommandFits(R, b, c) ==> r == r')
  {
    match c {
      case New(order) => NewOrderAgrees(R, b, order);
      case Cancel(id) => CancelAgrees(b, id);
      case Modify(id, price, volume, draw) =>
        if id in b.buys.index {
          CancelAgrees(b, id);
          NewOrderAgrees(R, CancelOrder(b, id).book, Replacement(b.buys.index[id], price, volume, draw));
        }
    }
  }

  /** Along the intended run, no order enters whose identifier rests on its side. */
  ghost predicate RunFresh(R: Rules, b: Book, commands: seq<Command>)
    requires Tradable(b)
    decreases |commands|
  {
    commands != [] ==> CommandFresh(R, b, commands[0]) && RunFresh(R, Step(R, b, commands[0]).book, commands[1..])
  }

  /** Along the intended run, every maker is safe. */
  ghost predicate RunFits(R: Rules, b: Book, commands: seq<Command>)
    requires Tradable(b)
    decreases |commands|
  {
    commands != [] ==> CommandFits(R, b, commands[0]) && RunFits(R, Step(R, b, commands[0]).book, commands[1..])
  }

  /** After every command the indices of the coded book are bijections. */
  ghost predicate CodedAgrees(R: Rules, b: Book, commands: seq<Command>)
    requires Tradable(b)
    decreases |commands|
  {
    && BookAgrees(b)
    && (commands != [] ==> CodedAgrees(R, CodedStep(R, b, commands[0]).book, commands[1..]))
  }

  /** Whole runs with fresh identifiers: the coded book keeps its indices throughout exactly when every maker in the run
      is safe, and then the coded run is the intended one, book, flags and events; all that is proved of runs holds of
      it. */
  lemma {:induction false} CodedRunIsRun(R: Rules, b: Book, commands: seq<Command>)
    requires Tradable(b) && BookAgrees(b) && RunFresh(R, b, commands)
    ensures CodedAgrees(R, b, commands) <==> RunFits(R, b, commands)
    ensures RunFits(R, b, commands) ==> CodedRun(R, b, commands) == Run(R, b, commands)
    decreases |commands|
  {
    if commands != [] {
      var c, rest := commands[0], commands[1..];
      CodedStepAgrees(R, b, c);
      CodedRunIsRun(R, Step(R, b, c).book, rest);
      if !CommandFits(R, b, c) {
        assert !CodedAgrees(R, CodedStep(R, b, c).book, rest);
      }
    }
  }

  // ----- Runs of new orders alone -----

  lemma PushSameButIndex(R: Rules, c: Book, b: Book, o: Order)
    requires Tradable(c) && Tradable(b) && SameButIndex(c, b)
    ensures SameButIndex(PushOwn(R, c, o), PushOwn(R, b, o))
  {
    assert c.For(o.side).items == b.For(o.side).items;
  }

  lemma MatchOrderSameButIndex(R: Rules, c: Book, b: Book, order: Order)
    requires Tradable(c) && Tradable(b) && SameButIndex(c, b) && order.IsValid()
    ensures var r, r' := CodedMatchOrder(R, c, order), MatchOrder(R, b, order);
      r.flags == r'.flags && r.events == r'.events && SameButIndex(r.book, r'.book)
  {
    var other := order.side.Opposite();
    assert c.For(other).items == b.For(other).items;
    SameTrades(R.For(other), order, c.For(other), b.For(other));
    var m, m' := CodedMatch(R.For(other), order, c.For(other)), Match(R.For(other), order, b.For(other));
    assert SameButIndex(c.With(other, m.queue), b.With(other, m'.queue));
    if m'.incoming.volume != 0 {
      assert Tradable(c.With(other, m.queue)) && Tradable(b.With(other, m'.queue));
      PushSameButIndex(R, c.With(other, m.queue), b.With(other, m'.queue), m'.incoming);
    }
  }

  /** Entering an order does not look at the indices. */
  lemma NewOrderSameButIndex(R: Rules, c: Book, b: Book, order: Order)
    requires Tradable(c) && Tradable(b) && SameButIndex(c, b)
    ensures var r, r' := CodedNewOrder(R, c, order), NewOrder(R, b, order);
      r.flags == r'.flags && r.events == r'.events && SameButIndex(r.book, r'.book)
  {
    if order.IsValid() {
      assert CanCross(c, order) <==> CanCross(b, order);
      if CanCross(b, order) {
        MatchOrderSameButIndex(R, c, b, order);
      } else {
        PushSameButIndex(R, c, b, order);
      }
    }
  }

  /** In a run of new orders alone, the coded book trades as the intended one and ends with the same orders at rest,
      whatever happens to its indices on the way. */
  lemma {:induction false} NewOrdersAlone(R: Rules, c: Book, b: Book, commands: seq<Command>)
    requires Tradable(c) && Tradable(b) && SameButIndex(c, b) && forall x :: x in commands ==> x.New?
    ensures var t, t' := CodedRun(R, c, commands), Run(R, b, commands);
      t.flags == t'.flags && t.events == t'.events && SameButIndex(t.book, t'.book)
    decreases |commands|
  {
    if commands != [] {
      assert commands[0] in commands && forall x :: x in commands[1..] ==> x in commands;
      NewOrderSameButIndex(R, c, b, commands[0].order);
      NewOrdersAlone(R, CodedStep(R, c, commands[0]).book, Step(R, b, commands[0]).book, commands[1..]);
    }
  }

  // ----- Orders from one sequencer -----

  function Before(x: nat): Property {
    (o: Order) => o.Timestamp() < x
  }

  /** The timestamps drawn are no less than x and increase. */
  ghost predicate StampsUp(x: nat, commands: seq<Command>)
    decreases |commands|
  {
    commands != [] ==>
      if Stamp(commands[0]).None? then StampsUp(x, commands[1..])
      else x <= Stamp(commands[0]).value && StampsUp(Stamp(commands[0]).value + 1, commands[1..])
  }

  function After(x: nat, c: Command): nat {
    if Stamp(c).Some? then Stamp(c).value + 1 else x
  }

  /** An order with a later timestamp than all that rest has an identifier that does not rest. */
  lemma LaterIsFresh(b: Book, order: Order, x: nat)
    requires BookAgrees(b) && AllRest(Before(x), b) && x <= order.Timestamp()
    ensures FreshEntry(b, order)
  {
    var q := b.For(order.side);
    forall id | id in q.index
      ensures Unpack(id).1 < x
    {
      assert q.index[id] in q.items && Before(x)(q.index[id]);
    }
  }

  lemma StampedIsFresh(R: Rules, b: Book, c: Command, x: nat)
    requires Tradable(b) && BookAgrees(b) && AllRest(Before(x), b)
    requires Stamp(c).Some? ==> x <= Stamp(c).value
    ensures CommandFresh(R, b, c)
    ensures AllRest(Before(After(x, c)), Step(R, b, c).book)
  {
    assert AllRest(Before(After(x, c)), b);
    if Entering(b, c).Some? {
      EnteringIsStamped(b, c);
      if c.Modify? {
        CancelAgrees(b, c.id);
        CancelHasProperty(Before(x), b, c.id);
      }
      LaterIsFresh(Entering(b, c).value.0, Entering(b, c).value.1, x);
    }
    StepHasProperty(Before(After(x, c)), R, b, c);
  }

  lemma {:induction false} StampedRunIsFresh(R: Rules, b: Book, commands: seq<Command>, x: nat)
    requires Tradable(b) && BookAgrees(b) && AllRest(Before(x), b) && StampsUp(x, commands)
    ensures RunFresh(R, b, commands)
    decreases |commands|
  {
    if commands != [] {
      StampedIsFresh(R, b, commands[0], x);
      CodedStepAgrees(R, b, commands[0]);
      StampedRunIsFresh(R, Step(R, b, commands[0]).book, commands[1..], After(x, commands[0]));
    }
  }

  ghost predicate Increasing(numbers: seq<nat>) {
    forall i, j :: 0 <= i < j < |numbers| ==> numbers[i] < numbers[j]
  }

  lemma RestIncreases(epoch: uint64, numbers: seq<nat>, commands: seq<Command>)
    requires FromSequencer(epoch, numbers, commands) && Increasing(numbers) && commands != []
    ensures Increasing(numbers[1..])
    ensures |commands| > 1 ==> (epoch + numbers[0]) % TWO_32 < (epoch + numbers[1]) % TWO_32
  {
    assert forall k :: 0 <= k < |numbers[1..]| ==> numbers[1..][k] == numbers[k + 1];
    if |commands| > 1 {
      NoWrap(epoch + numbers[0], numbers[1] - numbers[0], TWO_32);
    }
  }

  lemma {:induction false} DrawnStampsUp(epoch: uint64, numbers: seq<nat>, commands: seq<Command>, x: nat)
    requires FromSequencer(epoch, numbers, commands) && Increasing(numbers)
    requires commands != [] ==> x <= (epoch + numbers[0]) % TWO_32
    ensures StampsUp(x, commands)
    decreases |commands|
  {
    if commands != [] {
      assert Stamp(commands[0]).Some? ==> Stamp(commands[0]).value == (epoch + numbers[0]) % TWO_32 by {
        assert Carries(commands[0], DrawAt(epoch, numbers[0]));
        CarriedStamp(commands[0], epoch, numbers[0]);
      }
      RestFromSequencer(epoch, numbers, commands);
      RestIncreases(epoch, numbers, commands);
      DrawnStampsUp(epoch, numbers[1..], commands[1..], After(x, commands[0]));
    }
  }

  /** When orders and modifications take their draws one after the other from one sequencer that does not wrap, the
      coded book is the intended one throughout exactly when every maker in the run is safe. */
  lemma CodedRunFromSequencer(R: Rules, epoch: uint64, numbers: seq<nat>, commands: seq<Command>)
    requires FromSequencer(epoch, numbers, commands) && Increasing(numbers)
    ensures CodedAgrees(R, EmptyBook, commands) <==> RunFits(R, EmptyBook, commands)
    ensures RunFits(R, EmptyBook, commands) ==> CodedRun(R, EmptyBook, commands) == Run(R, EmptyBook, commands)
  {
    DrawnStampsUp(epoch, numbers, commands, 0);
    StampedRunIsFresh(R, EmptyBook, commands, 0);
    CodedRunIsRun(R, EmptyBook, commands);
  }

  // ----- A run in which it fails -----

  const ASK := Order(Pack(1, 5), 100, 10, Sell, "a")
  const BID := Order(Pack(2, 6), 100, 10, Buy, "b")

  const ASK_RESTS := Book(EmptyQueue, Queue([ASK], map[ASK.id := ASK]), map[(100, Sell) := 10])

  /** What is left when the bid has taken the ask, with this index of asks. */
  function AskTaken(index: map<uint64, Order>): Outcome {
    Outcome(ASK_RESTS.(sells := Queue([], index)), FULLY_FILLED | ACCEPTED, [Accepted(BID), Executed(BID, ASK, 10)])
  }

  lemma AskEnters(R: Rules)
    ensures NewOrder(R, EmptyBook, ASK) == Outcome(ASK_RESTS, ACCEPTED, [Accepted(ASK), Rested(ASK)])
    ensures Tradable(ASK_RESTS)
  {
    assert Wrap32(10) == 10;
    assert PushOwn(R, EmptyBook, ASK).sells == ASK_RESTS.sells;
  }

  lemma BidTakesAsk(R: Rules)
    requires Tradable(ASK_RESTS)
    ensures NewOrder(R, ASK_RESTS, BID) == AskTaken(map[])
    ensures CodedNewOrder(R, ASK_RESTS, BID) == AskTaken(map[ASK.id := ASK])
  {
    var q, spent := ASK_RESTS.sells, BID.(volume := 0);
    var gone, stale := Queue([], map[]), Queue([], map[ASK.id := ASK]);
    assert Narrow(ASK.id) == 5;
    assert CodedAfterTrade(R.sell, q, 10) == stale && AfterTrade(R.sell, q, 10) == gone;
    assert Match(R.sell, spent, gone) == MatchResult(spent, gone, []);
    assert CodedMatch(R.sell, spent, stale) == MatchResult(spent, stale, []);
    assert Match(R.sell, BID, q) == MatchResult(spent, gone, [Trade(ASK, 10)]);
    assert CodedMatch(R.sell, BID, q) == MatchResult(spent, stale, [Trade(ASK, 10)]);
    assert Executions(BID, [Trade(ASK, 10)]) == [Executed(BID, ASK, 10)];
  }

  /** The ask that the bid has taken can, as coded, still be found and still be cancelled, as if it had not traded; as
      intended, it is gone, and the cancellation is rejected. */
  lemma TradedOrderIsCancelled(R: Rules)
    ensures var commands := [New(ASK), New(BID)];
      var t, t' := CodedRun(R, EmptyBook, commands), Run(R, EmptyBook, commands);
      && t.events == t'.events && Executed(BID, ASK, 10) in t.events
      && t.book.sells.items == t'.book.sells.items == []
      && GetOrder(t.book, ASK.id) == Some(ASK) && GetOrder(t'.book, ASK.id) == None
      && CodedStep(R, t.book, Cancel(ASK.id)).flags == CANCELLED
      && CodedStep(R, t.book, Cancel(ASK.id)).events == [Cancelled(ASK)]
      && Step(R, t'.book, Cancel(ASK.id)).flags == REJECTED
  {
    var commands := [New(ASK), New(BID)];
    assert commands[1..] == [New(BID)] && commands[1..][1..] == [];
    AskEnters(R);
    BidTakesAsk(R);
    var after, after' := AskTaken(map[ASK.id := ASK]), AskTaken(map[]);
    assert CodedRun(R, ASK_RESTS, [New(BID)]) == Prepend(after, Trace(after.book, [], []));
    assert Run(R, ASK_RESTS, [New(BID)]) == Prepend(after', Trace(after'.book, [], []));
    assert Executed(BID, ASK, 10) in after.events + [];
  }
}
