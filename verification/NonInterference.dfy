/** An order that is accepted, never trades, is never modified and is later cancelled leaves no trace: the run without
    it ends in the same book and returns the same flags to every other command (core/OrderBook.cpp:7-123). */
module NonInterference {
  import opened Orders
  import opened OrderQueues
  import opened Matching
  import opened OrderBooks

  // ----- A queue with one identifier hidden -----

  function Without(s: seq<Order>, id: uint64): (r: seq<Order>)
    ensures |r| <= |s|
    ensures forall o :: o in r <==> o in s && o.id != id
  {
    if s == [] then []
    else if s[0].id == id then Without(s[1..], id)
    else [s[0]] + Without(s[1..], id)
  }

  function Hide(q: Queue, id: uint64): Queue {
    Queue(Without(q.items, id), q.index - {id})
  }

  lemma {:induction false} WithoutAppend(s: seq<Order>, o: Order, id: uint64)
    ensures Without(s + [o], id) == if o.id == id then Without(s, id) else Without(s, id) + [o]
  {
    if s == [] {
      assert s + [o] == [o];
      assert [o][1..] == [];
    } else {
      assert (s + [o])[1..] == s[1..] + [o];
      WithoutAppend(s[1..], o, id);
    }
  }

  /** Inserting another order into a sorted queue does not depend on whether the hidden one is there. */
  lemma {:induction false} InsertWithout(less: Comparator, s: seq<Order>, o: Order, id: uint64)
    requires StrictWeakOrder(less) && Sorted(less, s) && o.id != id
    ensures Without(Insert(less, s, o), id) == Insert(less, Without(s, id), o)
  {
    if s != [] {
      if less(o, s[0]) {
        assert ([o] + s)[1..] == s;
        var t := Without(s, id);
        if t != [] {
          var k :| 0 <= k < |s| && s[k] == t[0];
          assert k > 0 ==> !less(s[k], s[0]);
          assert less(o, t[0]);
        }
      } else {
        var r := Insert(less, s[1..], o);
        assert ([s[0]] + r)[1..] == r;
        InsertWithout(less, s[1..], o, id);
        if s[0].id != id {
          assert ([s[0]] + Without(s[1..], id))[1..] == Without(s[1..], id);
        }
      }
    }
  }

  lemma {:induction false} EraseWithout(s: seq<Order>, o: Order, id: uint64)
    requires o.id != id
    ensures Without(EraseLast(s, o), id) == EraseLast(Without(s, id), o)
  {
    if s != [] {
      var front, last := s[..|s| - 1], s[|s| - 1];
      assert s == front + [last];
      WithoutAppend(front, last, id);
      if last != o {
        EraseWithout(front, o, id);
        WithoutAppend(EraseLast(front, o), last, id);
        if last.id != id {
          assert (Without(front, id) + [last])[..|Without(front, id)|] == Without(front, id);
        }
      } else {
        assert (Without(front, id) + [last])[..|Without(front, id)|] == Without(front, id);
      }
    }
  }

  // ----- The hidden order is alone with its identifier -----

  /** x rests in q, is indexed, and is the only order with its identifier. */
  ghost predicate Lone(q: Queue, x: Order) {
    && x.id in q.index && q.index[x.id] == x
    && x in q.items && |Without(q.items, x.id)| == |q.items| - 1
  }

  /** No order in q has the identifier. */
  ghost predicate Absent(q: Queue, id: uint64) {
    id !in q.index && |Without(q.items, id)| == |q.items|
  }

  lemma {:induction false} NothingHidden(s: seq<Order>, id: uint64)
    requires |Without(s, id)| == |s|
    ensures Without(s, id) == s
  {
    if s != [] {
      NothingHidden(s[1..], id);
    }
  }

  lemma {:induction false} EraseLone(s: seq<Order>, x: Order)
    requires x in s && |Without(s, x.id)| == |s| - 1
    ensures EraseLast(s, x) == Without(s, x.id)
  {
    var front, last := s[..|s| - 1], s[|s| - 1];
    assert s == front + [last];
    WithoutAppend(front, last, x.id);
    if last.id == x.id {
      NothingHidden(front, x.id);
      assert x !in front;
    } else {
      EraseLone(front, x);
    }
  }

  // ----- Queue operations commute with hiding -----

  lemma PushHide(less: Comparator, q: Queue, o: Order, id: uint64)
    requires StrictWeakOrder(less) && Sorted(less, q.items) && o.id != id
    ensures Push(less, Hide(q, id), o) == Hide(Push(less, q, o), id)
  {
    InsertWithout(less, q.items, o, id);
  }

  lemma PopHide(q: Queue, id: uint64)
    requires q.items != [] && q.items[0].id != id
    ensures Hide(q, id).items != [] && Hide(q, id).items[0] == q.items[0]
    ensures Pop(Hide(q, id)) == Hide(Pop(q), id)
  {
    var first := q.items[0].id;
    assert q.index - {id} - {first} == q.index - {first} - {id};
  }

  lemma AfterTradeHide(less: Comparator, q: Queue, volume: nat, id: uint64)
    requires StrictWeakOrder(less) && Sorted(less, q.items) && AllValid(q.items)
    requires q.items != [] && volume <= q.items[0].volume && q.items[0].id != id
    ensures Hide(q, id).items != [] && Hide(q, id).items[0] == q.items[0]
    ensures AllValid(Hide(q, id).items)
    ensures AfterTrade(less, Hide(q, id), volume) == Hide(AfterTrade(less, q, volume), id)
  {
    var left := Reduced(q.items[0], volume);
    PopHide(q, id);
    PopKeepsSortedAndValid(less, q);
    if left.IsValid() {
      PushHide(less, Pop(q), left, id);
    }
  }

  ghost predicate NotTraded(trades: seq<Trade>, id: uint64) {
    forall k :: 0 <= k < |trades| ==> trades[k].maker.id != id
  }

  /** A match that does not touch the hidden order goes the same way without it. */
  lemma {:induction false} MatchHide(side: Side, less: Comparator, incoming: Order, q: Queue, id: uint64)
    requires PriceFirst(side, less) && incoming.side == side.Opposite()
    requires WellFormed(less, q) && NotTraded(Match(less, incoming, q).trades, id)
    ensures AllValid(Hide(q, id).items)
    ensures var r := Match(less, incoming, q);
      Match(less, incoming, Hide(q, id)) == r.(queue := Hide(r.queue, id))
    decreases incoming.volume
  {
    if CanTrade(incoming, q) {
      assert q.items[0] in q.items;
      var volume := Min(incoming.volume, q.items[0].volume);
      var r := Match(less, incoming, q);
      assert r.trades[0].maker == q.items[0];
      AfterTradeKeeps(less, q, volume);
      AfterTradeHide(less, q, volume, id);
      var q' := AfterTrade(less, q, volume);
      assert r.trades[1..] == Match(less, Reduced(incoming, volume), q').trades;
      MatchHide(side, less, Reduced(incoming, volume), q', id);
    } else if incoming.IsValid() {
      NothingCrosses(side, less, incoming, q.items);
      assert Hide(q, id).items != [] ==> Hide(q, id).items[0] in q.items;
    }
  }

  // ----- How long the hidden order stays alone -----

  lemma PushLone(less: Comparator, q: Queue, o: Order, x: Order)
    requires StrictWeakOrder(less) && Sorted(less, q.items) && o.id != x.id
    ensures Lone(q, x) ==> Lone(Push(less, q, o), x)
    ensures Absent(q, x.id) ==> Absent(Push(less, q, o), x.id)
  {
    InsertWithout(less, q.items, o, x.id);
    InsertMembers(less, q.items, o);
  }

  lemma PopLone(q: Queue, x: Order)
    requires Lone(q, x) && q.items[0].id != x.id
    ensures Lone(Pop(q), x)
  {
    assert q.items == [q.items[0]] + q.items[1..];
  }

  lemma AfterTradeLone(less: Comparator, q: Queue, volume: nat, x: Order)
    requires StrictWeakOrder(less) && WellFormed(less, q) && Lone(q, x)
    requires q.items != [] && volume <= q.items[0].volume && q.items[0].id != x.id
    ensures Lone(AfterTrade(less, q, volume), x)
  {
    PopKeepsSortedAndValid(less, q);
    PopLone(q, x);
    PushLone(less, Pop(q), Reduced(q.items[0], volume), x);
  }

  lemma {:induction false} MatchLone(less: Comparator, incoming: Order, q: Queue, x: Order)
    requires StrictWeakOrder(less) && WellFormed(less, q) && Lone(q, x)
    requires NotTraded(Match(less, incoming, q).trades, x.id)
    ensures Lone(Match(less, incoming, q).queue, x)
    decreases incoming.volume
  {
    if CanTrade(incoming, q) {
      assert q.items[0] in q.items;
      var volume := Min(incoming.volume, q.items[0].volume);
      var r := Match(less, incoming, q);
      assert r.trades[0].maker == q.items[0];
      AfterTradeKeeps(less, q, volume);
      AfterTradeLone(less, q, volume, x);
      var q' := AfterTrade(less, q, volume);
      assert r.trades[1..] == Match(less, Reduced(incoming, volume), q').trades;
      MatchLone(less, Reduced(incoming, volume), q', x);
    }
  }

  /** The opposite case: a match on the side where the identifier does not occur. */
  lemma {:induction false} MatchAbsent(less: Comparator, incoming: Order, q: Queue, x: Order)
    requires StrictWeakOrder(less) && WellFormed(less, q) && Absent(q, x.id)
    ensures Absent(Match(less, incoming, q).queue, x.id)
    ensures NotTraded(Match(less, incoming, q).trades, x.id)
    decreases incoming.volume
  {
    if CanTrade(incoming, q) {
      NothingHidden(q.items, x.id);
      assert q.items[0] in q.items;
      var volume := Min(incoming.volume, q.items[0].volume);
      AfterTradeKeeps(less, q, volume);
      PopKeepsSortedAndValid(less, q);
      assert Absent(Pop(q), x.id);
      PushLone(less, Pop(q), Reduced(q.items[0], volume), x);
      MatchAbsent(less, Reduced(incoming, volume), AfterTrade(less, q, volume), x);
    }
  }

  // ----- A queue and the same queue without the hidden order -----

  /** q' is q without x, which rests in q if `here`, and otherwise has an identifier that does not occur in q. */
  ghost predicate Shadow(q: Queue, q': Queue, x: Order, here: bool) {
    q' == Hide(q, x.id) && if here then Lone(q, x) else Absent(q, x.id)
  }

  lemma PushShadow(less: Comparator, q: Queue, q': Queue, x: Order, here: bool, o: Order)
    requires StrictWeakOrder(less) && Sorted(less, q.items)
    requires Shadow(q, q', x, here) && o.id != x.id
    ensures Shadow(Push(less, q, o), Push(less, q', o), x, here)
  {
    PushHide(less, q, o, x.id);
    PushLone(less, q, o, x);
  }

  lemma MatchShadow(side: Side, less: Comparator, q: Queue, q': Queue, x: Order, here: bool, incoming: Order)
    requires PriceFirst(side, less) && incoming.side == side.Opposite()
    requires WellFormed(less, q) && Shadow(q, q', x, here) && AllValid(q'.items)
    requires NotTraded(Match(less, incoming, q).trades, x.id)
    ensures var m, m' := Match(less, incoming, q), Match(less, incoming, q');
      m' == m.(queue := m'.queue) && Shadow(m.queue, m'.queue, x, here)
  {
    MatchHide(side, less, incoming, q, x.id);
    if here {
      MatchLone(less, incoming, q, x);
    } else {
      MatchAbsent(less, incoming, q, x);
    }
  }

  /** Whether the front of the queue can be traded with does not depend on x, unless that is x. */
  lemma FrontShadow(side: Side, less: Comparator, q: Queue, q': Queue, x: Order, here: bool, o: Order)
    requires PriceFirst(side, less) && o.side == side.Opposite() && o.IsValid()
    requires WellFormed(less, q) && Shadow(q, q', x, here)
    requires NotTraded(Match(less, o, q).trades, x.id)
    ensures CanTrade(o, q) == CanTrade(o, q')
  {
    if CanTrade(o, q) {
      assert Match(less, o, q).trades[0].maker == q.items[0];
      PopHide(q, x.id);
    } else {
      NothingCrosses(side, less, o, q.items);
      assert q'.items != [] ==> q'.items[0] in q.items;
    }
  }

  lemma EraseHide(s: seq<Order>, o: Order, x: Order)
    requires o in s && o.id != x.id
    ensures Without(EraseLast(s, o), x.id) == EraseLast(Without(s, x.id), o)
    ensures |EraseLast(s, o)| == |s| - 1
    ensures |Without(EraseLast(s, o), x.id)| == |Without(s, x.id)| - 1
  {
    EraseWithout(s, o, x.id);
    EraseShorter(s, o);
    EraseShorter(Without(s, x.id), o);
  }

  lemma EraseShorter(s: seq<Order>, o: Order)
    requires o in s
    ensures |EraseLast(s, o)| == |s| - 1
  {
    var p := EraseSplit(s, o);
  }

  lemma RemoveHide(q: Queue, id: uint64, x: Order)
    requires IndexLive(q) && id != x.id && id in q.index
    ensures id in Hide(q, x.id).index && Hide(q, x.id).index[id] == q.index[id]
    ensures Remove(Hide(q, x.id), id) == Hide(Remove(q, id), x.id)
  {
    EraseWithout(q.items, q.index[id], x.id);
    var i, j := q.index - {id} - {x.id}, q.index - {x.id} - {id};
    assert i.Keys == j.Keys;
    assert i == j;
  }

  lemma RemoveShadow(q: Queue, q': Queue, x: Order, here: bool, id: uint64)
    requires IndexLive(q) && Shadow(q, q', x, here) && id != x.id && id in q.index
    ensures id in q'.index && q'.index[id] == q.index[id]
    ensures Shadow(Remove(q, id), Remove(q', id), x, here)
  {
    RemoveHide(q, id, x);
    EraseHide(q.items, q.index[id], x);
    EraseMembers(q.items, q.index[id]);
  }

  /** x arrives in a queue in which its identifier does not occur. */
  lemma ArrivalShadow(less: Comparator, q: Queue, x: Order)
    requires Absent(q, x.id) && x.IsValid()
    ensures Shadow(Push(less, q, x), q, x, true)
  {
    NothingHidden(q.items, x.id);
    InsertHidden(less, q.items, x);
    InsertMembers(less, q.items, x);
    assert q.index[x.id := x] - {x.id} == q.index;
  }

  lemma {:induction false} InsertHidden(less: Comparator, s: seq<Order>, x: Order)
    ensures Without(Insert(less, s, x), x.id) == Without(s, x.id)
  {
    if s != [] && !less(x, s[0]) {
      InsertHidden(less, s[1..], x);
      assert ([s[0]] + Insert(less, s[1..], x))[1..] == Insert(less, s[1..], x);
    } else {
      assert ([x] + s)[1..] == s;
    }
  }

  lemma NoShadow(q: Queue, x: Order)
    requires Absent(q, x.id)
    ensures Hide(q, x.id) == q
  {
    NothingHidden(q.items, x.id);
    assert q.index - {x.id} == q.index;
  }

  lemma DepartureShadow(q: Queue, q': Queue, x: Order)
    requires Shadow(q, q', x, true)
    ensures Remove(q, x.id) == q'
  {
    EraseLone(q.items, x);
  }

  // ----- Two books that differ by the hidden order -----

  ghost predicate QueuesShadow(x: Order, b: Book, b': Book) {
    Shadow(b.buys, b'.buys, x, x.side == Buy) && Shadow(b.sells, b'.sells, x, x.side == Sell)
  }

  /** The totals of b' are those of b less the volume of x. */
  ghost predicate LevelsShifted(x: Order, b: Book, b': Book) {
    forall price: uint32, side: Side :: LevelShifted(x, b, b', price, side)
  }

  function VolumeOf(x: Order, price: uint32, side: Side): nat {
    if (price, side) == (x.price, x.side) then x.volume else 0
  }

  ghost predicate LevelShifted(x: Order, b: Book, b': Book, price: uint32, side: Side) {
    b'.VolumeAt(price, side) == Wrap32(b.VolumeAt(price, side) - VolumeOf(x, price, side))
  }

  ghost predicate Differs(x: Order, b: Book, b': Book) {
    QueuesShadow(x, b, b') && LevelsShifted(x, b, b')
  }

  ghost predicate Sound(R: Rules, b: Book) {
    R.Ok() && BookInv(R, b) && Tradable(b)
  }

  lemma QueueOf(R: Rules, b: Book, side: Side)
    requires Sound(R, b)
    ensures PriceFirst(side, R.For(side)) && WellFormed(R.For(side), b.For(side))
  {
  }

  lemma ForShadow(x: Order, b: Book, b': Book, side: Side)
    requires QueuesShadow(x, b, b')
    ensures Shadow(b.For(side), b'.For(side), x, x.side == side)
  {
  }

  lemma WithShadow(x: Order, b: Book, b': Book, side: Side, q: Queue, q': Queue)
    requires QueuesShadow(x, b, b') && Shadow(q, q', x, x.side == side)
    ensures QueuesShadow(x, b.With(side, q), b'.With(side, q'))
  {
  }

  lemma SameLevels(x: Order, b: Book, b': Book, c: Book, c': Book)
    requires LevelsShifted(x, b, b') && c.volumes == b.volumes && c'.volumes == b'.volumes
    ensures LevelsShifted(x, c, c')
  {
    forall price: uint32, side: Side
      ensures LevelShifted(x, c, c', price, side)
    {
      assert LevelShifted(x, b, b', price, side);
    }
  }

  lemma LevelMovesShadow(x: Order, b: Book, b': Book, price: uint32, side: Side, delta: int)
    requires LevelsShifted(x, b, b')
    ensures LevelsShifted(x, AddToLevel(b, price, side, delta), AddToLevel(b', price, side, delta))
  {
    var c, c' := AddToLevel(b, price, side, delta), AddToLevel(b', price, side, delta);
    forall p: uint32, s: Side
      ensures LevelShifted(x, c, c', p, s)
    {
      assert LevelShifted(x, b, b', p, s);
      if (p, s) == (price, side) {
        var shift: int := VolumeOf(x, p, s);
        WrapWrap(b.VolumeAt(p, s) - shift, delta);
        WrapWrap(b.VolumeAt(p, s) + delta, 0 - shift);
      }
    }
  }

  lemma LevelMovesDiffer(x: Order, b: Book, b': Book, price: uint32, side: Side, delta: int)
    requires Differs(x, b, b')
    ensures Differs(x, AddToLevel(b, price, side, delta), AddToLevel(b', price, side, delta))
  {
    LevelMovesShadow(x, b, b', price, side, delta);
  }

  ghost predicate NotExecuted(h: seq<Event>, id: uint64) {
    forall e :: e in h && e.Executed? ==> e.maker.id != id
  }

  lemma {:induction false} NotExecutedTrades(taker: Order, trades: seq<Trade>, id: uint64)
    requires NotExecuted(Executions(taker, trades), id)
    ensures NotTraded(trades, id)
  {
    if trades != [] {
      var h := Executions(taker, trades);
      assert h[0] in h && h[1..] == Executions(taker, trades[1..]);
      NotExecutedTrades(taker, trades[1..], id);
      forall k | 0 <= k < |trades|
        ensures trades[k].maker.id != id
      {
        assert k > 0 ==> trades[k] == trades[1..][k - 1];
      }
    }
  }

  /** The result of matching a new order against the other side. */
  ghost function MatchOf(R: Rules, b: Book, o: Order): MatchResult
    requires Tradable(b)
  {
    Match(R.For(o.side.Opposite()), o, b.For(o.side.Opposite()))
  }

  lemma CrossBook(R: Rules, b: Book, o: Order)
    requires Tradable(b) && o.IsValid() && CanCross(b, o)
    ensures var m := MatchOf(R, b, o);
      var c := b.With(o.side.Opposite(), m.queue);
      var r := NewOrder(R, b, o);
      && AllValid(m.queue.items) && Tradable(c)
      && r.book == (if m.incoming.volume == 0 then c else PushOwn(R, c, m.incoming))
      && r.flags == (if m.incoming.volume == 0 then FULLY_FILLED | ACCEPTED else PARTIALLY_FILLED | ACCEPTED)
      && r.events == [Accepted(o)] + (Executions(o, m.trades)
                       + if m.incoming.volume == 0 then [] else [RestedResidue(m.incoming)])
  {
  }

  lemma NewOrderTrades(R: Rules, b: Book, o: Order, id: uint64)
    requires Tradable(b) && o.IsValid() && NotExecuted(NewOrder(R, b, o).events, id)
    ensures NotTraded(MatchOf(R, b, o).trades, id)
  {
    if CanCross(b, o) {
      CrossBook(R, b, o);
      var m := MatchOf(R, b, o);
      assert forall e :: e in Executions(o, m.trades) ==> e in NewOrder(R, b, o).events;
      NotExecutedTrades(o, m.trades, id);
    }
  }

  lemma PushOwnShadows(R: Rules, x: Order, b: Book, b': Book, o: Order)
    requires QueuesShadow(x, b, b') && Tradable(b) && Tradable(b') && o.id != x.id
    requires StrictWeakOrder(R.For(o.side)) && Sorted(R.For(o.side), b.For(o.side).items)
    ensures QueuesShadow(x, PushOwn(R, b, o), PushOwn(R, b', o))
  {
    var less, q, q' := R.For(o.side), b.For(o.side), b'.For(o.side);
    ForShadow(x, b, b', o.side);
    PushShadow(less, q, q', x, x.side == o.side, o);
    WithShadow(x, b, b', o.side, Push(less, q, o), Push(less, q', o));
  }

  /** Two outcomes that look the same from outside and leave books that still differ by x alone. */
  ghost predicate OutcomesShadow(x: Order, r: Outcome, r': Outcome) {
    r'.flags == r.flags && r'.events == r.events && Differs(x, r.book, r'.book)
  }

  lemma CrossingShadows(R: Rules, x: Order, b: Book, b': Book, o: Order)
    requires Sound(R, b) && Tradable(b') && Differs(x, b, b')
    requires o.id != x.id && o.IsValid() && CanCross(b, o) && CanCross(b', o)
    requires NotTraded(MatchOf(R, b, o).trades, x.id)
    ensures OutcomesShadow(x, NewOrder(R, b, o), NewOrder(R, b', o))
  {
    var other := o.side.Opposite();
    var m, m' := MatchOf(R, b, o), MatchOf(R, b', o);
    QueueOf(R, b, other);
    ForShadow(x, b, b', other);
    MatchShadow(other, R.For(other), b.For(other), b'.For(other), x, x.side == other, o);
    WithShadow(x, b, b', other, m.queue, m'.queue);
    CrossBook(R, b, o);
    CrossBook(R, b', o);
    var c, c' := b.With(other, m.queue), b'.With(other, m'.queue);
    if m.incoming.volume != 0 {
      QueueOf(R, b, o.side);
      assert c.For(o.side) == b.For(o.side);
      PushOwnShadows(R, x, c, c', m.incoming);
    }
    SameLevels(x, b, b', NewOrder(R, b, o).book, NewOrder(R, b', o).book);
  }

  lemma RestingOutcome(R: Rules, b: Book, o: Order)
    requires Tradable(b) && o.IsValid() && !CanCross(b, o)
    ensures NewOrder(R, b, o)
         == Outcome(AddToLevel(PushOwn(R, b, o), o.price, o.side, o.volume), ACCEPTED, [Accepted(o), Rested(o)])
  {
  }

  lemma RestingShadows(R: Rules, x: Order, b: Book, b': Book, o: Order)
    requires Tradable(b) && Tradable(b') && LevelsShifted(x, b, b')
    requires o.IsValid() && !CanCross(b, o) && !CanCross(b', o)
    requires QueuesShadow(x, PushOwn(R, b, o), PushOwn(R, b', o))
    ensures OutcomesShadow(x, NewOrder(R, b, o), NewOrder(R, b', o))
  {
    var c, c' := PushOwn(R, b, o), PushOwn(R, b', o);
    RestingOutcome(R, b, o);
    RestingOutcome(R, b', o);
    SameLevels(x, b, b', c, c');
    LevelMovesDiffer(x, c, c', o.price, o.side, o.volume);
  }

  lemma NewOrderShadows(R: Rules, x: Order, b: Book, b': Book, o: Order)
    requires Sound(R, b) && Tradable(b') && Differs(x, b, b')
    requires o.id != x.id && NotExecuted(NewOrder(R, b, o).events, x.id)
    ensures OutcomesShadow(x, NewOrder(R, b, o), NewOrder(R, b', o))
  {
    if o.IsValid() {
      var other := o.side.Opposite();
      NewOrderTrades(R, b, o, x.id);
      QueueOf(R, b, other);
      ForShadow(x, b, b', other);
      FrontShadow(other, R.For(other), b.For(other), b'.For(other), x, x.side == other, o);
      if CanCross(b, o) {
        CrossingShadows(R, x, b, b', o);
      } else {
        QueueOf(R, b, o.side);
        PushOwnShadows(R, x, b, b', o);
        RestingShadows(R, x, b, b', o);
      }
    }
  }

  lemma CancelQueuesShadow(R: Rules, x: Order, b: Book, b': Book, side: Side, id: uint64)
    requires Sound(R, b) && QueuesShadow(x, b, b') && id != x.id && id in b.For(side).index
    ensures id in b'.For(side).index && b'.For(side).index[id] == b.For(side).index[id]
    ensures QueuesShadow(x, AfterCancel(b, side, id), AfterCancel(b', side, id))
  {
    var q, q' := b.For(side), b'.For(side);
    QueueOf(R, b, side);
    ForShadow(x, b, b', side);
    RemoveShadow(q, q', x, x.side == side, id);
    WithShadow(x, b, b', side, Remove(q, id), Remove(q', id));
  }

  function AfterCancel(b: Book, side: Side, id: uint64): Book {
    b.With(side, Remove(b.For(side), id))
  }

  lemma CancelOutcome(b: Book, side: Side, id: uint64)
    requires Tradable(b) && id in b.For(side).index
    ensures var o := b.For(side).index[id];
      CancelFrom(b, side, id)
        == Outcome(AddToLevel(AfterCancel(b, side, id), o.price, side, 0 - o.volume), CANCELLED, [Cancelled(o)])
  {
  }

  lemma CancelFromShadows(x: Order, b: Book, b': Book, side: Side, id: uint64)
    requires Tradable(b) && Tradable(b') && LevelsShifted(x, b, b')
    requires id in b.For(side).index && id in b'.For(side).index && b'.For(side).index[id] == b.For(side).index[id]
    requires QueuesShadow(x, AfterCancel(b, side, id), AfterCancel(b', side, id))
    ensures OutcomesShadow(x, CancelFrom(b, side, id), CancelFrom(b', side, id))
  {
    var o := b.For(side).index[id];
    var c, c' := AfterCancel(b, side, id), AfterCancel(b', side, id);
    SameLevels(x, b, b', c, c');
    CancelOutcome(b, side, id);
    CancelOutcome(b', side, id);
    LevelMovesDiffer(x, c, c', o.price, side, 0 - o.volume);
  }

  lemma CancelShadows(R: Rules, x: Order, b: Book, b': Book, id: uint64)
    requires Sound(R, b) && Tradable(b') && Differs(x, b, b') && id != x.id
    ensures OutcomesShadow(x, CancelOrder(b, id), CancelOrder(b', id))
  {
    assert id in b.buys.index <==> id in b'.buys.index;
    assert id in b.sells.index <==> id in b'.sells.index;
    if id in b.buys.index {
      CancelQueuesShadow(R, x, b, b', Buy, id);
      CancelFromShadows(x, b, b', Buy, id);
    } else if id in b.sells.index {
      CancelQueuesShadow(R, x, b, b', Sell, id);
      CancelFromShadows(x, b, b', Sell, id);
    }
  }

  // ----- Steps and runs beside the hidden order -----

  /** The command neither names the identifier nor brings in an order that carries it. */
  ghost predicate LeavesAlone(b: Book, c: Command, id: uint64) {
    match c
    case New(order) => order.id != id
    case Cancel(target) => target != id
    case Modify(target, price, volume, draw) =>
      target != id &&
      (target in b.buys.index ==> Replacement(b.buys.index[target], price, volume, draw).id != id)
  }

  lemma ModifyShadows(R: Rules, x: Order, b: Book, b': Book, id: uint64, price: uint32, volume: uint32, draw: uint64)
    requires Sound(R, b) && Tradable(b') && Differs(x, b, b')
    requires LeavesAlone(b, Modify(id, price, volume, draw), x.id)
    requires NotExecuted(ModifyOrder(R, b, id, price, volume, draw).events, x.id)
    ensures OutcomesShadow(x, ModifyOrder(R, b, id, price, volume, draw), ModifyOrder(R, b', id, price, volume, draw))
  {
    assert id in b.buys.index <==> id in b'.buys.index;
    if id in b.buys.index {
      var order := Replacement(b.buys.index[id], price, volume, draw);
      CancelShadows(R, x, b, b', id);
      CancelKeepsInv(R, b, id);
      var c, c' := CancelOrder(b, id), CancelOrder(b', id);
      ModifyOutcome(R, b, id, price, volume, draw);
      ModifyOutcome(R, b', id, price, volume, draw);
      assert forall e :: e in NewOrder(R, c.book, order).events ==>
               e in ModifyOrder(R, b, id, price, volume, draw).events;
      NewOrderShadows(R, x, c.book, c'.book, order);
    }
  }

  lemma StepShadows(R: Rules, x: Order, b: Book, b': Book, c: Command)
    requires Sound(R, b) && Tradable(b') && Differs(x, b, b')
    requires LeavesAlone(b, c, x.id) && NotExecuted(Step(R, b, c).events, x.id)
    ensures Sound(R, Step(R, b, c).book)
    ensures OutcomesShadow(x, Step(R, b, c), Step(R, b', c))
  {
    StepKeepsInv(R, b, c);
    match c {
      case New(order) => NewOrderShadows(R, x, b, b', order);
      case Cancel(id) => CancelShadows(R, x, b, b', id);
      case Modify(id, price, volume, draw) => ModifyShadows(R, x, b, b', id, price, volume, draw);
    }
  }

  /** Throughout the run the identifier is left alone and the order carrying it does not trade. */
  ghost predicate Undisturbed(R: Rules, b: Book, commands: seq<Command>, id: uint64)
    requires Tradable(b)
    decreases |commands|
  {
    commands != [] ==>
      && LeavesAlone(b, commands[0], id)
      && NotExecuted(Step(R, b, commands[0]).events, id)
      && Undisturbed(R, Step(R, b, commands[0]).book, commands[1..], id)
  }

  lemma {:induction false} RunShadows(R: Rules, x: Order, b: Book, b': Book, commands: seq<Command>)
    requires Sound(R, b) && Tradable(b') && Differs(x, b, b') && Undisturbed(R, b, commands, x.id)
    ensures var t, t' := Run(R, b, commands), Run(R, b', commands);
      t'.flags == t.flags && t'.events == t.events && Sound(R, t.book) && Differs(x, t.book, t'.book)
    decreases |commands|
  {
    if commands != [] {
      StepShadows(R, x, b, b', commands[0]);
      RunShadows(R, x, Step(R, b, commands[0]).book, Step(R, b', commands[0]).book, commands[1..]);
    }
  }

  // ----- Arrival and cancellation of the hidden order -----

  /** An order whose only flag is ACCEPTED rested whole. */
  lemma AcceptedMeansRested(R: Rules, b: Book, x: Order)
    requires Tradable(b) && NewOrder(R, b, x).flags == ACCEPTED
    ensures x.IsValid() && !CanCross(b, x)
  {
    NewOrderFlags(R, b, x);
    if CanCross(b, x) {
      MatchOrderFills(R, b, x);
      FilledConcat([Accepted(x)], MatchOrder(R, b, x).events);
    }
  }

  lemma ArrivalQueues(R: Rules, x: Order, b: Book)
    requires Tradable(b) && Absent(b.buys, x.id) && Absent(b.sells, x.id) && x.IsValid()
    ensures QueuesShadow(x, PushOwn(R, b, x), b)
  {
    ArrivalShadow(R.For(x.side), b.For(x.side), x);
    NoShadow(b.For(x.side.Opposite()), x);
  }

  lemma ArrivalLevels(x: Order, b: Book, c: Book)
    requires c.volumes == b.volumes
    ensures LevelsShifted(x, AddToLevel(c, x.price, x.side, x.volume), b)
  {
    forall price: uint32, side: Side
      ensures LevelShifted(x, AddToLevel(c, x.price, x.side, x.volume), b, price, side)
    {
      WrapWrap(b.VolumeAt(price, side) + x.volume, 0 - x.volume);
      WrapFixed(b.VolumeAt(price, side));
    }
  }

  lemma ArrivalDiffers(R: Rules, x: Order, b: Book)
    requires Tradable(b) && Absent(b.buys, x.id) && Absent(b.sells, x.id)
    requires x.IsValid() && !CanCross(b, x)
    ensures Differs(x, NewOrder(R, b, x).book, b)
  {
    ArrivalQueues(R, x, b);
    ArrivalLevels(x, b, PushOwn(R, b, x));
  }

  /** Books with the same queues and the same totals, absent totals read as zero. */
  ghost predicate SameView(b: Book, b': Book) {
    && b.buys == b'.buys && b.sells == b'.sells
    && forall price: uint32, side: Side :: SameLevel(b, b', price, side)
  }

  ghost predicate SameLevel(b: Book, b': Book, price: uint32, side: Side) {
    b.VolumeAt(price, side) == b'.VolumeAt(price, side)
  }

  /** Cancelling the hidden order makes the two books the same. */
  lemma DepartureQueues(x: Order, b: Book, b': Book)
    requires QueuesShadow(x, b, b')
    ensures x.id in b.For(x.side).index && b.For(x.side).index[x.id] == x
    ensures x.id !in b.For(x.side.Opposite()).index
    ensures var c := b.With(x.side, Remove(b.For(x.side), x.id));
      c.buys == b'.buys && c.sells == b'.sells
  {
    var other := x.side.Opposite();
    ForShadow(x, b, b', x.side);
    ForShadow(x, b, b', other);
    DepartureShadow(b.For(x.side), b'.For(x.side), x);
    NoShadow(b.For(other), x);
  }

  lemma DepartureLevels(x: Order, b: Book, b': Book, c: Book, d: Book)
    requires LevelsShifted(x, b, b') && c.volumes == b.volumes
    requires d == AddToLevel(c, x.price, x.side, 0 - x.volume)
    ensures forall price: uint32, side: Side :: SameLevel(d, b', price, side)
  {
    forall price: uint32, side: Side
      ensures SameLevel(d, b', price, side)
    {
      assert LevelShifted(x, b, b', price, side);
      WrapFixed(b.VolumeAt(price, side));
    }
  }

  lemma DepartureRestores(x: Order, b: Book, b': Book)
    requires Differs(x, b, b') && Tradable(b)
    ensures var r := CancelOrder(b, x.id);
      r.flags == CANCELLED && r.events == [Cancelled(x)] && SameView(r.book, b')
  {
    DepartureQueues(x, b, b');
    CancelOutcome(b, x.side, x.id);
    DepartureLevels(x, b, b', AfterCancel(b, x.side, x.id), CancelOrder(b, x.id).book);
  }

  // ----- Books that look the same behave the same -----

  lemma AddToSameLevel(b: Book, b': Book, price: uint32, side: Side, delta: int)
    requires SameView(b, b')
    ensures SameView(AddToLevel(b, price, side, delta), AddToLevel(b', price, side, delta))
  {
    forall p: uint32, s: Side
      ensures SameLevel(AddToLevel(b, price, side, delta), AddToLevel(b', price, side, delta), p, s)
    {
      assert SameLevel(b, b', p, s) && SameLevel(b, b', price, side);
    }
  }

  lemma SameViewWith(b: Book, b': Book, c: Book, c': Book)
    requires SameView(b, b') && c.volumes == b.volumes && c'.volumes == b'.volumes
    requires c.buys == c'.buys && c.sells == c'.sells
    ensures SameView(c, c')
  {
    forall p: uint32, s: Side
      ensures SameLevel(c, c', p, s)
    {
      assert SameLevel(b, b', p, s);
    }
  }

  lemma NewOrderSameView(R: Rules, b: Book, b': Book, o: Order)
    requires Tradable(b) && Tradable(b') && SameView(b, b')
    ensures var r, r' := NewOrder(R, b, o), NewOrder(R, b', o);
      r.flags == r'.flags && r.events == r'.events && SameView(r.book, r'.book)
  {
    if o.IsValid() {
      if CanCross(b, o) {
        CrossBook(R, b, o);
        CrossBook(R, b', o);
        SameViewWith(b, b', NewOrder(R, b, o).book, NewOrder(R, b', o).book);
      } else {
        var c, c' := PushOwn(R, b, o), PushOwn(R, b', o);
        SameViewWith(b, b', c, c');
        AddToSameLevel(c, c', o.price, o.side, o.volume);
      }
    }
  }

  lemma CancelSameView(b: Book, b': Book, id: uint64)
    requires Tradable(b) && Tradable(b') && SameView(b, b')
    ensures var r, r' := CancelOrder(b, id), CancelOrder(b', id);
      r.flags == r'.flags && r.events == r'.events && SameView(r.book, r'.book)
  {
    if id in b.buys.index || id in b.sells.index {
      var side := if id in b.buys.index then Buy else Sell;
      var q := b.For(side);
      var c, c' := b.With(side, Remove(q, id)), b'.With(side, Remove(q, id));
      SameViewWith(b, b', c, c');
      AddToSameLevel(c, c', q.index[id].price, side, 0 - q.index[id].volume);
    }
  }

  lemma StepSameView(R: Rules, b: Book, b': Book, c: Command)
    requires Tradable(b) && Tradable(b') && SameView(b, b')
    ensures var r, r' := Step(R, b, c), Step(R, b', c);
      r.flags == r'.flags && r.events == r'.events && SameView(r.book, r'.book)
  {
    match c {
      case New(order) => NewOrderSameView(R, b, b', order);
      case Cancel(id) => CancelSameView(b, b', id);
      case Modify(id, price, volume, draw) =>
        if id in b.buys.index {
          CancelSameView(b, b', id);
          NewOrderSameView(R, CancelOrder(b, id).book, CancelOrder(b', id).book,
                           Replacement(b.buys.index[id], price, volume, draw));
        }
    }
  }

  lemma {:induction false} RunSameView(R: Rules, b: Book, b': Book, commands: seq<Command>)
    requires Tradable(b) && Tradable(b') && SameView(b, b')
    ensures var t, t' := Run(R, b, commands), Run(R, b', commands);
      t.flags == t'.flags && t.events == t'.events && SameView(t.book, t'.book)
    decreases |commands|
  {
    if commands != [] {
      StepSameView(R, b, b', commands[0]);
      RunSameView(R, Step(R, b, commands[0]).book, Step(R, b', commands[0]).book, commands[1..]);
    }
  }

  // ----- The theorem -----

  function Stay(x: Order, between: seq<Command>): seq<Command> {
    [New(x)] + between + [Cancel(x.id)]
  }

  lemma StayTrace(R: Rules, x: Order, b: Book, between: seq<Command>)
    requires Tradable(b)
    ensures var arrival := NewOrder(R, b, x);
      var u := Run(R, arrival.book, between);
      var departure := CancelOrder(u.book, x.id);
      Run(R, b, Stay(x, between))
        == Prepend(arrival, Join(u, Trace(departure.book, [departure.flags], departure.events)))
  {
    var c := NewOrder(R, b, x).book;
    assert Stay(x, between)[0] == New(x) && Stay(x, between)[1..] == between + [Cancel(x.id)];
    RunConcat(R, c, between, [Cancel(x.id)]);
    RunOne(R, Run(R, c, between).book, Cancel(x.id));
  }

  lemma StayShadows(R: Rules, x: Order, b: Book, between: seq<Command>)
    requires Sound(R, b) && Absent(b.buys, x.id) && Absent(b.sells, x.id)
    requires NewOrder(R, b, x).flags == ACCEPTED
    requires Undisturbed(R, NewOrder(R, b, x).book, between, x.id)
    ensures NewOrder(R, b, x).events == [Accepted(x), Rested(x)]
    ensures var u, v := Run(R, NewOrder(R, b, x).book, between), Run(R, b, between);
      && u.flags == v.flags && u.events == v.events
      && CancelOrder(u.book, x.id).flags == CANCELLED
      && CancelOrder(u.book, x.id).events == [Cancelled(x)]
      && SameView(CancelOrder(u.book, x.id).book, v.book)
  {
    AcceptedMeansRested(R, b, x);
    ArrivalDiffers(R, x, b);
    NewOrderKeepsInv(R, b, x);
    var c := NewOrder(R, b, x).book;
    RunShadows(R, x, c, b, between);
    DepartureRestores(x, Run(R, c, between).book, Run(R, b, between).book);
  }

  lemma Wrapped(first: Outcome, t: Trace, last: Outcome)
    ensures var w := Prepend(first, Join(t, Trace(last.book, [last.flags], last.events)));
      && w.flags == [first.flags] + t.flags + [last.flags]
      && w.events == first.events + t.events + last.events
      && w.book == last.book
  {
  }

  /** From any sound book: while x comes, is undisturbed and goes, the others see nothing of it. */
  lemma StayLeavesNoTrace(R: Rules, x: Order, b: Book, between: seq<Command>)
    requires Sound(R, b) && Absent(b.buys, x.id) && Absent(b.sells, x.id)
    requires NewOrder(R, b, x).flags == ACCEPTED
    requires Undisturbed(R, NewOrder(R, b, x).book, between, x.id)
    ensures var t, t' := Run(R, b, Stay(x, between)), Run(R, b, between);
      && t.flags == [ACCEPTED] + t'.flags + [CANCELLED]
      && t.events == [Accepted(x), Rested(x)] + t'.events + [Cancelled(x)]
      && SameView(t.book, t'.book)
  {
    StayShadows(R, x, b, between);
    StayTrace(R, x, b, between);
    var arrival := NewOrder(R, b, x);
    var u := Run(R, arrival.book, between);
    Wrapped(arrival, u, CancelOrder(u.book, x.id));
  }

  lemma RunOne(R: Rules, b: Book, c: Command)
    requires Tradable(b)
    ensures var r := Step(R, b, c);
      Run(R, b, [c]) == Trace(r.book, [r.flags], r.events)
  {
    assert [c][1..] == [];
  }

  /** In a run from the empty book: x arrives after `before` with an identifier that is not resting, rests whole, is
      undisturbed during `between` and is then cancelled. The run without it returns the same flags to every other
      command, causes the same other events, and ends with the same queues and the same totals. */
  lemma LeavesNoTrace(R: Rules, x: Order, before: seq<Command>, between: seq<Command>, after: seq<Command>)
    requires R.Ok()
    requires var b := Run(R, EmptyBook, before).book;
      && Absent(b.buys, x.id) && Absent(b.sells, x.id)
      && NewOrder(R, b, x).flags == ACCEPTED
      && Undisturbed(R, NewOrder(R, b, x).book, between, x.id)
    ensures var t1 := Run(R, EmptyBook, before);
      var t2 := Run(R, t1.book, between);
      var t3 := Run(R, t2.book, after);
      var with_ := Run(R, EmptyBook, before + Stay(x, between) + after);
      var without := Run(R, EmptyBook, before + between + after);
      && without.flags == t1.flags + t2.flags + t3.flags
      && with_.flags == t1.flags + ([ACCEPTED] + t2.flags + [CANCELLED]) + t3.flags
      && without.events == t1.events + t2.events + t3.events
      && with_.events == t1.events + ([Accepted(x), Rested(x)] + t2.events + [Cancelled(x)]) + t3.events
      && SameView(with_.book, without.book)
  {
    RunKeepsInv(R, EmptyBook, before);
    var b := Run(R, EmptyBook, before).book;
    StayLeavesNoTrace(R, x, b, between);
    var c, c' := Run(R, b, Stay(x, between)).book, Run(R, b, between).book;
    RunSameView(R, c, c', after);
    RunConcat(R, EmptyBook, before, between);
    RunConcat(R, EmptyBook, before + between, after);
    RunConcat(R, EmptyBook, before, Stay(x, between));
    RunConcat(R, EmptyBook, before + Stay(x, between), after);
  }
}
