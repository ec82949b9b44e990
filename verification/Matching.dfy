/** The matching loop as a function on values, and the closed form of what it computes
    (matchOrder in core/OrderBook.cpp:48-84). */
module Matching {
  import opened Orders
  import opened OrderQueues

  predicate PriceCrosses(incoming: Order, opposite: Order) {
    if incoming.side == Buy then opposite.price <= incoming.price else opposite.price >= incoming.price
  }

  function Min(x: nat, y: nat): nat {
    if x < y then x else y
  }

  /** One execution: the resting order as it stood, and the volume it gave up. */
  datatype Trade = Trade(maker: Order, volume: nat)

  datatype MatchResult = MatchResult(incoming: Order, queue: Queue, trades: seq<Trade>)

  function Reduced(o: Order, volume: nat): Order
    requires volume <= o.volume
  {
    o.(volume := o.volume - volume)
  }

  /** The opposite queue after its front order has traded `volume`. */
  function AfterTrade(less: Comparator, q: Queue, volume: nat): (r: Queue)
    requires q.items != [] && volume <= q.items[0].volume
    requires AllValid(q.items)
    ensures AllValid(r.items)
  {
    var rest, left := Pop(q), Reduced(q.items[0], volume);
    assert forall o :: o in rest.items ==> o in q.items;
    InsertMembers(less, rest.items, left);
    if left.IsValid() then Push(less, rest, left) else rest
  }

  predicate CanTrade(incoming: Order, q: Queue) {
    incoming.IsValid() && q.items != [] && PriceCrosses(incoming, q.items[0])
  }

  /** The loop. It ends because every resting order has positive volume, so each turn takes some from the incoming. */
  function Match(less: Comparator, incoming: Order, q: Queue): (r: MatchResult)
    requires AllValid(q.items)
    ensures AllValid(r.queue.items)
    ensures !CanTrade(r.incoming, r.queue)
    ensures r.incoming == incoming.(volume := r.incoming.volume) && r.incoming.volume <= incoming.volume
    decreases incoming.volume
  {
    if !CanTrade(incoming, q) then
      MatchResult(incoming, q, [])
    else
      var best := q.items[0];
      assert best in q.items;
      var volume := Min(incoming.volume, best.volume);
      var r := Match(less, Reduced(incoming, volume), AfterTrade(less, q, volume));
      r.(trades := [Trade(best, volume)] + r.trades)
  }

  // ----- Closed form -----

  function SumVolume(s: seq<Order>): nat {
    if s == [] then 0 else s[0].volume + SumVolume(s[1..])
  }

  function TradedVolume(trades: seq<Trade>): nat {
    if trades == [] then 0 else trades[0].volume + TradedVolume(trades[1..])
  }

  /** What order i of a queue gets from an incoming order: price and time priority, without any loop. Nothing at a price
      that among orders of the incoming side would rank before its own: that would be above the limit of a buyer, or
      below that of a seller. */
  function Share(incoming: Order, s: seq<Order>, i: nat): nat
    requires i < |s|
  {
    var ahead := SumVolume(s[..i]);
    if BetterPrice(incoming.side, s[i].price, incoming.price) || incoming.volume <= ahead then 0
    else Min(s[i].volume, incoming.volume - ahead)
  }

  function TradeVolumeAt(trades: seq<Trade>, i: nat): nat {
    if i < |trades| then trades[i].volume else 0
  }

  /** The opposite items after a match in which the first n orders traded: the untouched rest, plus the n-th order
      reduced if it did not give all it had. */
  function Leftover(less: Comparator, incoming: Order, s: seq<Order>, n: nat): seq<Order>
    requires n <= |s|
  {
    if n == 0 || Share(incoming, s, n - 1) >= s[n - 1].volume then s[n..]
    else Insert(less, s[n..], Reduced(s[n - 1], Share(incoming, s, n - 1)))
  }

  function LeftoverIndex(incoming: Order, q: Queue, n: nat): map<uint64, Order>
    requires n <= |q.items|
  {
    var gone := q.index - (set o | o in q.items[..n] :: o.id);
    if n == 0 || Share(incoming, q.items, n - 1) >= q.items[n - 1].volume then gone
    else gone[q.items[n - 1].id := Reduced(q.items[n - 1], Share(incoming, q.items, n - 1))]
  }

  /** In a sorted queue, once an order does not cross, none behind it does. */
  lemma CrossingIsPrefix(side: Side, less: Comparator, incoming: Order, s: seq<Order>, i: nat, j: nat)
    requires PriceFirst(side, less) && incoming.side == side.Opposite() && Sorted(less, s)
    requires i <= j < |s| && PriceCrosses(incoming, s[j])
    ensures PriceCrosses(incoming, s[i])
  {
    assert i < j ==> !less(s[j], s[i]);
    assert !BetterPrice(side, s[j].price, s[i].price);
  }

  ghost predicate IsAllocation(less: Comparator, incoming: Order, q: Queue, r: MatchResult) {
    var n := |r.trades|;
    && n <= |q.items|
    && (forall i :: 0 <= i < |q.items| ==> TradeVolumeAt(r.trades, i) == Share(incoming, q.items, i))
    && (forall i :: 0 <= i < n ==> r.trades[i].maker == q.items[i] && r.trades[i].volume > 0)
    && r.incoming.volume == incoming.volume - TradedVolume(r.trades)
    && r.queue.items == Leftover(less, incoming, q.items, n)
    && r.queue.index == LeftoverIndex(incoming, q, n)
  }

  /** After the first order is taken whole, the shares of the others are those of what is left against what is left. */
  lemma ShareShifts(incoming: Order, s: seq<Order>, i: nat)
    requires 0 < i < |s| && s[0].volume <= incoming.volume
    ensures Share(incoming, s, i) == Share(Reduced(incoming, s[0].volume), s[1..], i - 1)
  {
    assert s[..i] == [s[0]] + s[1..][..i - 1];
    assert SumVolume(s[..i]) == s[0].volume + SumVolume(s[1..][..i - 1]);
  }

  lemma ShareBehindWholeOrder(incoming: Order, s: seq<Order>, i: nat)
    requires 0 < i < |s| && incoming.volume <= s[0].volume
    ensures Share(incoming, s, i) == 0
  {
    assert s[..i] == [s[0]] + s[1..][..i - 1];
  }

  /** The loop computes the closed-form allocation: each crossing order is filled by what the orders ahead of it have
      left, every other by nothing; the residue is the rest of the incoming volume. */
  lemma {:induction false} MatchIsAllocation(side: Side, less: Comparator, incoming: Order, q: Queue)
    requires PriceFirst(side, less) && incoming.side == side.Opposite()
    requires Sorted(less, q.items) && AllValid(q.items)
    requires incoming.price != 0 && incoming.client != ""
    ensures IsAllocation(less, incoming, q, Match(less, incoming, q))
    decreases incoming.volume
  {
    var s := q.items;
    var r := Match(less, incoming, q);
    if !CanTrade(incoming, q) {
      forall i | 0 <= i < |s|
        ensures Share(incoming, s, i) == 0
      {
        if PriceCrosses(incoming, s[i]) {
          CrossingIsPrefix(side, less, incoming, s, 0, i);
        }
      }
      assert s[..0] == [] && s[0..] == s;
      assert q.index - {} == q.index;
    } else {
      assert s[0] in s && s[..0] == [];
      assert Share(incoming, s, 0) == Min(s[0].volume, incoming.volume);
      if incoming.volume <= s[0].volume {
        LastTrade(less, incoming, q);
      } else {
        var v := s[0].volume;
        assert AfterTrade(less, q, v) == Pop(q);
        PopKeepsSortedAndValid(less, q);
        MatchIsAllocation(side, less, Reduced(incoming, v), Pop(q));
        WholeOrderTaken(less, incoming, q, Match(less, Reduced(incoming, v), Pop(q)));
      }
    }
  }

  /** The turn of the loop that uses up the incoming order. */
  lemma LastTrade(less: Comparator, incoming: Order, q: Queue)
    requires AllValid(q.items) && CanTrade(incoming, q) && incoming.volume <= q.items[0].volume
    ensures IsAllocation(less, incoming, q, Match(less, incoming, q))
  {
    var s := q.items;
    var r := Match(less, incoming, q);
    assert s[0] in s && s[..0] == [];
    var t := Min(incoming.volume, s[0].volume);
    assert t == incoming.volume;
    var q' := AfterTrade(less, q, t);
    assert Match(less, Reduced(incoming, t), q') == MatchResult(Reduced(incoming, t), q', []);
    assert r.trades == [Trade(s[0], t)];
    assert r.trades[1..] == [];
    forall i | 0 < i < |s|
      ensures Share(incoming, s, i) == 0
    {
      ShareBehindWholeOrder(incoming, s, i);
    }
    assert (set o | o in s[..1] :: o.id) == {s[0].id};
  }

  /** A turn of the loop that takes the whole front order, followed by an allocation of the rest, is an allocation. */
  lemma WholeOrderTaken(less: Comparator, incoming: Order, q: Queue, r': MatchResult)
    requires q.items != [] && 0 < q.items[0].volume < incoming.volume && PriceCrosses(incoming, q.items[0])
    requires IsAllocation(less, Reduced(incoming, q.items[0].volume), Pop(q), r')
    ensures IsAllocation(less, incoming, q, r'.(trades := [Trade(q.items[0], q.items[0].volume)] + r'.trades))
  {
    var s, v := q.items, q.items[0].volume;
    var incoming' := Reduced(incoming, v);
    var trades := [Trade(s[0], v)] + r'.trades;
    assert trades[1..] == r'.trades;
    forall i | 0 <= i < |s|
      ensures TradeVolumeAt(trades, i) == Share(incoming, s, i)
    {
      if i == 0 {
        assert s[..0] == [];
      } else {
        ShareShifts(incoming, s, i);
        assert TradeVolumeAt(r'.trades, i - 1) == Share(incoming', s[1..], i - 1);
      }
    }
    LeftoverShifts(less, incoming, q, |r'.trades|);
  }

  lemma LeftoverShifts(less: Comparator, incoming: Order, q: Queue, n: nat)
    requires q.items != [] && n < |q.items| && q.items[0].volume <= incoming.volume
    requires PriceCrosses(incoming, q.items[0])
    ensures Leftover(less, Reduced(incoming, q.items[0].volume), q.items[1..], n)
         == Leftover(less, incoming, q.items, n + 1)
    ensures LeftoverIndex(Reduced(incoming, q.items[0].volume), Pop(q), n) == LeftoverIndex(incoming, q, n + 1)
  {
    var s := q.items;
    assert s[1..][n..] == s[n + 1..];
    if n > 0 {
      ShareShifts(incoming, s, n);
      assert s[1..][n - 1] == s[n];
    } else {
      assert s[..0] == [];
    }
    IdsShift(s, n, q.index);
  }

  lemma IdsShift(s: seq<Order>, n: nat, index: map<uint64, Order>)
    requires n < |s|
    ensures index - {s[0].id} - (set o | o in s[1..][..n] :: o.id) == index - (set o | o in s[..n + 1] :: o.id)
  {
    assert s[..n + 1] == [s[0]] + s[1..][..n];
    var ids := set o | o in s[1..][..n] :: o.id;
    var all := set o | o in s[..n + 1] :: o.id;
    forall id
      ensures id in all <==> id == s[0].id || id in ids
    {
      if id in ids {
        var o :| o in s[1..][..n] && o.id == id;
        assert o in s[..n + 1];
      }
      if id == s[0].id {
        assert s[0] in s[..n + 1];
      }
    }
  }

  /** When priority keys are distinct, the one reduced order is back at the head of the queue. */
  lemma ReducedOrderIsAtHead(side: Side, less: Comparator, incoming: Order, s: seq<Order>, n: nat)
    requires 0 < n <= |s| && Share(incoming, s, n - 1) < s[n - 1].volume
    requires PriceFirst(side, less)
    requires forall i, j :: 0 <= i < j < |s| ==> less(s[i], s[j])
    ensures Leftover(less, incoming, s, n) == [Reduced(s[n - 1], Share(incoming, s, n - 1))] + s[n..]
  {
    if n < |s| {
      assert less(s[n - 1], s[n]);
      assert s[n..][0] == s[n];
    }
  }

  // ----- Machine arithmetic -----

  /** Conversion to a 32-bit signed integer, modulo 2^32. */
  function Wrap32(x: int): int32 {
    var low := x % TWO_32;
    if low < TWO_31 then low else low - TWO_32
  }

  lemma WrapFixed(x: int32)
    ensures Wrap32(x) == x
  {
    if x < 0 {
      DivModUnique(x, -1, x + TWO_32, TWO_32);
    }
  }

  lemma WrapWrap(x: int, y: int)
    ensures Wrap32(Wrap32(x) + y) == Wrap32(x + y)
  {
    var k := if x % TWO_32 < TWO_31 then x / TWO_32 else x / TWO_32 + 1;
    assert x == x / TWO_32 * TWO_32 + x % TWO_32;
    assert Wrap32(x) == x - k * TWO_32;
    var z := x + y;
    DivModUnique(z - k * TWO_32, z / TWO_32 - k, z % TWO_32, TWO_32);
  }

  /** Subtraction of a signed from an unsigned 32-bit integer, which C++ carries out modulo 2^32. */
  function SubtractU32(x: uint32, y: int32): uint32 {
    (x - y) % TWO_32
  }

  /** The trade volume is stored in an `int`, so it is negative above 2^31; subtracting it is exact all the same. */
  lemma TradeThroughIntIsExact(x: uint32, y: uint32)
    ensures SubtractU32(x, Wrap32(Min(x, y))) == x - Min(x, y)
    ensures SubtractU32(y, Wrap32(Min(x, y))) == y - Min(x, y)
  {
    var m := Min(x, y);
    assert m % TWO_32 == m;
    assert x - m + TWO_32 == (x - m) + TWO_32;
  }
}
