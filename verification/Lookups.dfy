/** What getOrder answers over whole runs (core/OrderBook.cpp:129-139): every resting order is found under its own
    identifier, and nothing else is found, as long as no order enters with an identifier that rests already. */
module Lookups {
  import opened Orders
  import opened OrderQueues
  import opened Matching
  import opened OrderBooks
  import opened TimePriority
  import opened CodedBooks

  /** No order with this identifier rests on either side. */
  ghost predicate NoneRests(b: Book, order: Order) {
    order.IsValid() ==> order.id !in b.buys.index && order.id !in b.sells.index
  }

  /** In the run no valid order enters with an identifier that rests already. */
  ghost predicate RunIsFresh(R: Rules, b: Book, commands: seq<Command>)
    requires Tradable(b)
    decreases |commands|
  {
    commands != [] ==>
      && (var e := Entering(b, commands[0]); e.Some? ==> NoneRests(e.value.0, e.value.1))
      && RunIsFresh(R, Step(R, b, commands[0]).book, commands[1..])
  }

  /** No identifier rests on both sides. */
  ghost predicate Unshared(b: Book) {
    forall x, y :: x in b.buys.items && y in b.sells.items ==> x.id != y.id
  }

  function OnSide(id: uint64, side: Side): Property {
    (o: Order) => o.id == id ==> o.side == side
  }

  lemma RestsOnOneSide(R: Rules, b: Book, id: uint64) returns (side: Side)
    requires BookInv(R, b) && Unshared(b)
    ensures AllRest(OnSide(id, side), b)
  {
    SideIsSorted(R, b, Buy);
    SideIsSorted(R, b, Sell);
    side := if exists x :: x in b.buys.items && x.id == id then Buy else Sell;
  }

  lemma AbsentIsOnAnySide(b: Book, id: uint64, side: Side)
    requires BookAgrees(b) && id !in b.buys.index && id !in b.sells.index
    ensures AllRest(OnSide(id, side), b)
  {
  }

  lemma EntryUnshared(R: Rules, b: Book, order: Order)
    requires R.Ok() && BookInv(R, b) && Tradable(b) && BookAgrees(b) && Unshared(b) && NoneRests(b, order)
    ensures Unshared(NewOrder(R, b, order).book)
  {
    if order.IsValid() {
      var b' := NewOrder(R, b, order).book;
      NewOrderKeepsInv(R, b, order);
      SideIsSorted(R, b', Buy);
      SideIsSorted(R, b', Sell);
      forall x, y | x in b'.buys.items && y in b'.sells.items
        ensures x.id != y.id
      {
        var side := order.side;
        if x.id == order.id {
          AbsentIsOnAnySide(b, x.id, side);
        } else {
          side := RestsOnOneSide(R, b, x.id);
        }
        EntryHasProperty(OnSide(x.id, side), R, b, order);
        assert OnSide(x.id, side)(x) && OnSide(x.id, side)(y);
      }
    }
  }

  lemma CancelUnshared(b: Book, id: uint64)
    requires Tradable(b) && Unshared(b)
    ensures Unshared(CancelOrder(b, id).book)
  {
    forall side | id in b.For(side).index
      ensures forall o :: o in EraseLast(b.For(side).items, b.For(side).index[id]) ==> o in b.For(side).items
    {
      EraseMembers(b.For(side).items, b.For(side).index[id]);
    }
  }

  /** The indices are bijections and share no identifier. */
  ghost predicate Findable(R: Rules, b: Book) {
    BookInv(R, b) && Tradable(b) && BookAgrees(b) && Unshared(b)
  }

  lemma EntryFindable(R: Rules, b: Book, order: Order)
    requires R.Ok() && Findable(R, b) && NoneRests(b, order)
    ensures Findable(R, NewOrder(R, b, order).book)
  {
    NewOrderKeepsInv(R, b, order);
    NewOrderAgrees(R, b, order);
    EntryUnshared(R, b, order);
  }

  lemma CancelFindable(R: Rules, b: Book, id: uint64)
    requires R.Ok() && Findable(R, b)
    ensures Findable(R, CancelOrder(b, id).book)
  {
    CancelKeepsInv(R, b, id);
    CancelAgrees(b, id);
    CancelUnshared(b, id);
  }

  lemma StepFindable(R: Rules, b: Book, c: Command)
    requires R.Ok() && Findable(R, b)
    requires Entering(b, c).Some? ==> NoneRests(Entering(b, c).value.0, Entering(b, c).value.1)
    ensures Findable(R, Step(R, b, c).book)
  {
    match c {
      case New(order) => EntryFindable(R, b, order);
      case Cancel(id) => CancelFindable(R, b, id);
      case Modify(id, price, volume, draw) =>
        if id in b.buys.index {
          CancelFindable(R, b, id);
          EntryFindable(R, CancelOrder(b, id).book, Entering(b, c).value.1);
        }
    }
  }

  lemma {:induction false} RunFindable(R: Rules, b: Book, commands: seq<Command>)
    requires R.Ok() && Findable(R, b) && RunIsFresh(R, b, commands)
    ensures Findable(R, Run(R, b, commands).book)
    decreases |commands|
  {
    if commands != [] {
      StepFindable(R, b, commands[0]);
      RunFindable(R, Step(R, b, commands[0]).book, commands[1..]);
    }
  }

  /** After any run with fresh identifiers, getOrder finds an order exactly when it rests, bids and asks alike. */
  lemma RestingOrdersAreFound(R: Rules, commands: seq<Command>, id: uint64, o: Order)
    requires R.Ok() && RunIsFresh(R, EmptyBook, commands)
    ensures var b := Run(R, EmptyBook, commands).book;
      GetOrder(b, id) == Some(o) <==> o.id == id && (o in b.buys.items || o in b.sells.items)
  {
    RunFindable(R, EmptyBook, commands);
  }

  lemma LaterRestsNowhere(b: Book, order: Order, x: nat)
    requires BookAgrees(b) && AllRest(Before(x), b) && x <= order.Timestamp()
    ensures NoneRests(b, order)
  {
    forall side, id | id in b.For(side).index
      ensures Unpack(id).1 < x
    {
      assert b.For(side).index[id] in b.For(side).items && Before(x)(b.For(side).index[id]);
    }
    assert b.For(Buy) == b.buys && b.For(Sell) == b.sells;
  }

  lemma {:induction false} StampedRunIsFresh(R: Rules, b: Book, commands: seq<Command>, x: nat)
    requires Tradable(b) && BookAgrees(b) && AllRest(Before(x), b) && StampsUp(x, commands)
    ensures RunIsFresh(R, b, commands)
    decreases |commands|
  {
    if commands != [] {
      var c := commands[0];
      StampedIsFresh(R, b, c, x);
      CodedStepAgrees(R, b, c);
      if Entering(b, c).Some? {
        EnteringIsStamped(b, c);
        if c.Modify? {
          CancelAgrees(b, c.id);
          CancelHasProperty(Before(x), b, c.id);
        }
        LaterRestsNowhere(Entering(b, c).value.0, Entering(b, c).value.1, x);
      }
      StampedRunIsFresh(R, Step(R, b, c).book, commands[1..], CodedBooks.After(x, c));
    }
  }

  /** Orders and modifications that take their draws one after the other from one sequencer that does not wrap: each
      order at rest, and no other, is found under its own identifier. */
  lemma DrawnOrdersAreFound(R: Rules, epoch: uint64, numbers: seq<nat>, commands: seq<Command>, id: uint64, o: Order)
    requires R.Ok() && FromSequencer(epoch, numbers, commands) && Increasing(numbers)
    ensures var b := Run(R, EmptyBook, commands).book;
      GetOrder(b, id) == Some(o) <==> o.id == id && (o in b.buys.items || o in b.sells.items)
  {
    DrawnStampsUp(epoch, numbers, commands, 0);
    StampedRunIsFresh(R, EmptyBook, commands, 0);
    RestingOrdersAreFound(R, commands, id, o);
  }
}
