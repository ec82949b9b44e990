/** Volume accounting over whole runs: conservation on each side, and what the `volumes_` totals of
    core/OrderBook.hpp:183-185 hold. */
module Ledger {
  import opened Orders
  import opened OrderQueues
  import opened Matching
  import opened OrderBooks

  /** One side of the book, at one price level or at all of them. */
  datatype Scope = Scope(side: Side, level: Option<uint32>)

  datatype Account =
    | AcceptedVolume   // volume of accepted orders
    | RestedVolume     // volume of orders that rested whole on arrival
    | ResidueVolume    // volume of residues that rested after trading
    | ExecutedVolume   // volume executed against resting orders
    | TakenVolume      // volume executed by incoming orders
    | CancelledVolume  // resting volume that was cancelled

  predicate AtLevel(o: Order, level: Option<uint32>) {
    level == None || level == Some(o.price)
  }

  predicate InScope(o: Order, scope: Scope) {
    o.side == scope.side && AtLevel(o, scope.level)
  }

  function Amount(e: Event, account: Account, scope: Scope): nat {
    match (e, account)
    case (Accepted(o), AcceptedVolume) => if InScope(o, scope) then o.volume else 0
    case (Rested(o), RestedVolume) => if InScope(o, scope) then o.volume else 0
    case (RestedResidue(o), ResidueVolume) => if InScope(o, scope) then o.volume else 0
    case (Cancelled(o), CancelledVolume) => if InScope(o, scope) then o.volume else 0
    case (Executed(_, maker, v), ExecutedVolume) => if InScope(maker, scope) then v else 0
    case (Executed(taker, _, v), TakenVolume) => if InScope(taker, scope) then v else 0
    case (_, _) => 0
  }

  function Tally(h: seq<Event>, account: Account, scope: Scope): nat {
    if h == [] then 0 else Amount(h[0], account, scope) + Tally(h[1..], account, scope)
  }

  function RestingIn(s: seq<Order>, level: Option<uint32>): nat {
    if s == [] then 0 else (if AtLevel(s[0], level) then s[0].volume else 0) + RestingIn(s[1..], level)
  }

  function Resting(b: Book, scope: Scope): nat {
    RestingIn(b.For(scope.side).items, scope.level)
  }

  // ----- Sums -----

  lemma {:induction false} TallyConcat(g: seq<Event>, h: seq<Event>, account: Account, scope: Scope)
    ensures Tally(g + h, account, scope) == Tally(g, account, scope) + Tally(h, account, scope)
  {
    if g == [] {
      assert g + h == h;
    } else {
      assert (g + h)[1..] == g[1..] + h;
      TallyConcat(g[1..], h, account, scope);
    }
  }

  lemma TallyOne(e: Event, account: Account, scope: Scope)
    ensures Tally([e], account, scope) == Amount(e, account, scope)
  {
    assert [e][1..] == [];
  }

  lemma {:induction false} RestingConcat(s: seq<Order>, t: seq<Order>, level: Option<uint32>)
    ensures RestingIn(s + t, level) == RestingIn(s, level) + RestingIn(t, level)
  {
    if s == [] {
      assert s + t == t;
    } else {
      assert (s + t)[1..] == s[1..] + t;
      RestingConcat(s[1..], t, level);
    }
  }

  function Weight(o: Order, level: Option<uint32>): nat {
    if AtLevel(o, level) then o.volume else 0
  }

  lemma RestingAround(s: seq<Order>, o: Order, t: seq<Order>, level: Option<uint32>)
    ensures RestingIn(s + [o] + t, level) == RestingIn(s + t, level) + Weight(o, level)
  {
    RestingConcat(s + [o], t, level);
    RestingConcat(s, [o], level);
    RestingConcat(s, t, level);
    assert [o][1..] == [];
  }

  lemma RestingInsert(less: Comparator, s: seq<Order>, o: Order, level: Option<uint32>)
    ensures RestingIn(Insert(less, s, o), level) == RestingIn(s, level) + Weight(o, level)
  {
    var p := InsertSplit(less, s, o);
    RestingAround(s[..p], o, s[p..], level);
    assert s[..p] + s[p..] == s;
  }

  lemma RestingErase(s: seq<Order>, o: Order, level: Option<uint32>)
    requires o in s
    ensures RestingIn(s, level) == RestingIn(EraseLast(s, o), level) + Weight(o, level)
  {
    var p := EraseSplit(s, o);
    RestingAround(s[..p], o, s[p + 1..], level);
    assert s[..p] + [o] + s[p + 1..] == s;
  }

  // ----- What one operation does to the accounts -----

  /** From book b, the events h lead to book b' and account for every change in volume. */
  ghost predicate Balanced(b: Book, h: seq<Event>, b': Book) {
    && (forall scope :: RestingBalanced(b, h, b', scope))
    && (forall price, side :: LevelBalanced(b, h, b', price, side))
    && (forall side :: SideBalanced(h, side))
  }

  ghost predicate RestingBalanced(b: Book, h: seq<Event>, b': Book, scope: Scope) {
    Resting(b', scope) + Tally(h, ExecutedVolume, scope) + Tally(h, CancelledVolume, scope)
      == Resting(b, scope) + Tally(h, RestedVolume, scope) + Tally(h, ResidueVolume, scope)
  }

  ghost predicate LevelBalanced(b: Book, h: seq<Event>, b': Book, price: uint32, side: Side) {
    var scope := Scope(side, Some(price));
    b'.VolumeAt(price, side)
      == Wrap32(b.VolumeAt(price, side) + Tally(h, RestedVolume, scope) - Tally(h, CancelledVolume, scope))
  }

  ghost predicate SideBalanced(h: seq<Event>, side: Side) {
    var scope := Scope(side, None);
    && Tally(h, AcceptedVolume, scope)
         == Tally(h, RestedVolume, scope) + Tally(h, ResidueVolume, scope) + Tally(h, TakenVolume, scope)
    && Tally(h, ExecutedVolume, scope) == Tally(h, TakenVolume, Scope(side.Opposite(), None))
  }

  lemma NothingHappened(b: Book)
    ensures Balanced(b, [], b)
  {
    forall price: uint32, side: Side
      ensures LevelBalanced(b, [], b, price, side)
    {
      WrapFixed(b.VolumeAt(price, side));
    }
  }

  lemma BalancedChain(b: Book, g: seq<Event>, b': Book, h: seq<Event>, b'': Book)
    requires Balanced(b, g, b') && Balanced(b', h, b'')
    ensures Balanced(b, g + h, b'')
  {
    forall account, scope
      ensures Tally(g + h, account, scope) == Tally(g, account, scope) + Tally(h, account, scope)
    {
      TallyConcat(g, h, account, scope);
    }
    forall scope
      ensures RestingBalanced(b, g + h, b'', scope)
    {
      assert RestingBalanced(b, g, b', scope) && RestingBalanced(b', h, b'', scope);
    }
    forall price: uint32, side: Side
      ensures LevelBalanced(b, g + h, b'', price, side)
    {
      LevelChain(b, g, b', h, b'', price, side);
    }
    forall side
      ensures SideBalanced(g + h, side)
    {
      assert SideBalanced(g, side) && SideBalanced(h, side);
    }
  }

  lemma LevelChain(b: Book, g: seq<Event>, b': Book, h: seq<Event>, b'': Book, price: uint32, side: Side)
    requires LevelBalanced(b, g, b', price, side) && LevelBalanced(b', h, b'', price, side)
    ensures LevelBalanced(b, g + h, b'', price, side)
  {
    var scope := Scope(side, Some(price));
    TallyConcat(g, h, RestedVolume, scope);
    TallyConcat(g, h, CancelledVolume, scope);
    WrapWrap(b.VolumeAt(price, side) + Tally(g, RestedVolume, scope) - Tally(g, CancelledVolume, scope),
             Tally(h, RestedVolume, scope) - Tally(h, CancelledVolume, scope));
  }

  /** The matching loop: what leaves the opposite queue is what the trades say, level by level. */
  lemma {:induction false} MatchBalanced(less: Comparator, incoming: Order, q: Queue, level: Option<uint32>)
    requires AllValid(q.items)
    ensures var r := Match(less, incoming, q);
      RestingIn(r.queue.items, level) + TradedAt(r.trades, level) == RestingIn(q.items, level)
    decreases incoming.volume
  {
    if CanTrade(incoming, q) {
      assert q.items[0] in q.items;
      var volume := Min(incoming.volume, q.items[0].volume);
      var q' := AfterTrade(less, q, volume);
      AfterTradeBalanced(less, q, volume, level);
      MatchBalanced(less, Reduced(incoming, volume), q', level);
      assert Match(less, incoming, q).trades[1..] == Match(less, Reduced(incoming, volume), q').trades;
    }
  }

  lemma AfterTradeBalanced(less: Comparator, q: Queue, volume: nat, level: Option<uint32>)
    requires q.items != [] && volume <= q.items[0].volume && AllValid(q.items)
    ensures RestingIn(AfterTrade(less, q, volume).items, level) + (if AtLevel(q.items[0], level) then volume else 0)
         == RestingIn(q.items, level)
  {
    var left := Reduced(q.items[0], volume);
    assert q.items[0] in q.items;
    if left.IsValid() {
      RestingInsert(less, q.items[1..], left, level);
    }
  }

  function TradedAt(trades: seq<Trade>, level: Option<uint32>): nat {
    if trades == [] then 0
    else (if AtLevel(trades[0].maker, level) then trades[0].volume else 0) + TradedAt(trades[1..], level)
  }

  ghost predicate MakersOn(trades: seq<Trade>, side: Side) {
    forall k :: 0 <= k < |trades| ==> trades[k].maker.side == side
  }

  lemma {:induction false} MatchMakers(less: Comparator, incoming: Order, q: Queue, side: Side)
    requires StrictWeakOrder(less) && WellFormed(less, q) && OneSided(side, q.items)
    ensures MakersOn(Match(less, incoming, q).trades, side)
    decreases incoming.volume
  {
    if CanTrade(incoming, q) {
      assert q.items[0] in q.items;
      var volume := Min(incoming.volume, q.items[0].volume);
      AfterTradeKeeps(less, q, volume);
      MatchMakers(less, Reduced(incoming, volume), AfterTrade(less, q, volume), side);
    }
  }

  /** The executions of one incoming order in the accounts. */
  lemma {:induction false} TallyExecutions(taker: Order, trades: seq<Trade>, account: Account, scope: Scope)
    requires MakersOn(trades, taker.side.Opposite())
    ensures Tally(Executions(taker, trades), account, scope) ==
      match account
      case ExecutedVolume => if scope.side == taker.side then 0 else TradedAt(trades, scope.level)
      case TakenVolume => if InScope(taker, scope) then TradedVolume(trades) else 0
      case _ => 0
  {
    if trades != [] {
      TallyExecutions(taker, trades[1..], account, scope);
      assert Executions(taker, trades)[1..] == Executions(taker, trades[1..]);
      assert trades[0].maker.side == taker.side.Opposite();
    }
  }

  lemma {:induction false} TradedEverywhere(trades: seq<Trade>)
    ensures TradedAt(trades, None) == TradedVolume(trades)
  {
    if trades != [] {
      TradedEverywhere(trades[1..]);
    }
  }

  /** An order's residue resting, or a whole order resting: the sums of its own side. */
  lemma PushOwnResting(R: Rules, b: Book, o: Order, scope: Scope)
    requires Tradable(b) && o.IsValid()
    ensures Resting(PushOwn(R, b, o), scope) == Resting(b, scope) + (if InScope(o, scope) then o.volume else 0)
  {
    RestingInsert(R.For(o.side), b.For(o.side).items, o, scope.level);
  }

  /** What an order that crosses adds to each account, given the result of matching it. */
  function CrossAmount(o: Order, m: MatchResult, account: Account, scope: Scope): nat {
    match account
    case AcceptedVolume => if InScope(o, scope) then o.volume else 0
    case ResidueVolume => if InScope(o, scope) then m.incoming.volume else 0
    case ExecutedVolume => if scope.side == o.side then 0 else TradedAt(m.trades, scope.level)
    case TakenVolume => if InScope(o, scope) then TradedVolume(m.trades) else 0
    case RestedVolume => 0
    case CancelledVolume => 0
  }

  function CrossEvents(o: Order, m: MatchResult): seq<Event> {
    [Accepted(o)] + (Executions(o, m.trades) + if m.incoming.volume == 0 then [] else [RestedResidue(m.incoming)])
  }

  lemma CrossTally(o: Order, m: MatchResult, account: Account, scope: Scope)
    requires MakersOn(m.trades, o.side.Opposite()) && m.incoming == o.(volume := m.incoming.volume)
    ensures Tally(CrossEvents(o, m), account, scope) == CrossAmount(o, m, account, scope)
  {
    var residue := if m.incoming.volume == 0 then [] else [RestedResidue(m.incoming)];
    TallyConcat([Accepted(o)], Executions(o, m.trades) + residue, account, scope);
    TallyConcat(Executions(o, m.trades), residue, account, scope);
    TallyOne(Accepted(o), account, scope);
    TallyOne(RestedResidue(m.incoming), account, scope);
    TallyExecutions(o, m.trades, account, scope);
  }

  lemma CrossOutcome(R: Rules, b: Book, o: Order)
    requires Tradable(b) && o.IsValid() && CanCross(b, o)
    ensures var other := o.side.Opposite();
      var m := Match(R.For(other), o, b.For(other));
      var r := NewOrder(R, b, o);
      && r.events == CrossEvents(o, m)
      && r.book == if m.incoming.volume == 0 then b.With(other, m.queue)
                   else PushOwn(R, b.With(other, m.queue), m.incoming)
  {
  }

  lemma CrossResting(R: Rules, b: Book, o: Order, scope: Scope)
    requires Tradable(b) && o.IsValid() && CanCross(b, o)
    ensures var other := o.side.Opposite();
      var m := Match(R.For(other), o, b.For(other));
      Resting(NewOrder(R, b, o).book, scope) + CrossAmount(o, m, ExecutedVolume, scope)
        == Resting(b, scope) + CrossAmount(o, m, ResidueVolume, scope)
  {
    var other := o.side.Opposite();
    var m := Match(R.For(other), o, b.For(other));
    CrossOutcome(R, b, o);
    MatchBalanced(R.For(other), o, b.For(other), scope.level);
    if m.incoming.volume != 0 {
      PushOwnResting(R, b.With(other, m.queue), m.incoming, scope);
    }
  }

  lemma CrossMakers(R: Rules, b: Book, o: Order)
    requires R.Ok() && BookInv(R, b) && Tradable(b)
    ensures var other := o.side.Opposite();
      MakersOn(Match(R.For(other), o, b.For(other)).trades, other)
  {
    var other := o.side.Opposite();
    assert WellFormed(R.For(other), b.For(other)) && OneSided(other, b.For(other).items);
    MatchMakers(R.For(other), o, b.For(other), other);
  }

  lemma CrossBalanced(R: Rules, b: Book, o: Order)
    requires Tradable(b) && o.IsValid() && CanCross(b, o)
    requires var other := o.side.Opposite();
      MakersOn(Match(R.For(other), o, b.For(other)).trades, other)
    ensures Balanced(b, NewOrder(R, b, o).events, NewOrder(R, b, o).book)
  {
    var other := o.side.Opposite();
    var m := Match(R.For(other), o, b.For(other));
    var r := NewOrder(R, b, o);
    CrossOutcome(R, b, o);
    forall account, scope
      ensures Tally(r.events, account, scope) == CrossAmount(o, m, account, scope)
    {
      CrossTally(o, m, account, scope);
    }
    forall scope
      ensures RestingBalanced(b, r.events, r.book, scope)
    {
      CrossResting(R, b, o, scope);
    }
    forall price: uint32, side: Side
      ensures LevelBalanced(b, r.events, r.book, price, side)
    {
      LevelUnchanged(b, r.events, r.book, price, side);
    }
    MatchSpendsIncoming(R.For(other), o, b.For(other));
    CrossSides(o, m, r.events);
  }

  lemma CrossSides(o: Order, m: MatchResult, h: seq<Event>)
    requires forall account, scope :: Tally(h, account, scope) == CrossAmount(o, m, account, scope)
    requires m.incoming.volume + TradedVolume(m.trades) == o.volume
    ensures forall side :: SideBalanced(h, side)
  {
    TradedEverywhere(m.trades);
  }

  lemma LevelUnchanged(b: Book, h: seq<Event>, b': Book, price: uint32, side: Side)
    requires b'.volumes == b.volumes
    requires Tally(h, RestedVolume, Scope(side, Some(price))) == 0
    requires Tally(h, CancelledVolume, Scope(side, Some(price))) == 0
    ensures LevelBalanced(b, h, b', price, side)
  {
    WrapFixed(b.VolumeAt(price, side));
  }

  /** Adding to one level of the totals, when the accounts of that level alone move by the same amount. */
  lemma LevelMoves(b: Book, h: seq<Event>, b': Book, o: Order, delta: int)
    requires b'.volumes == AddToLevel(b, o.price, o.side, delta).volumes
    requires forall scope :: Tally(h, RestedVolume, scope) - Tally(h, CancelledVolume, scope)
                          == if InScope(o, scope) then delta else 0
    ensures forall price, side :: LevelBalanced(b, h, b', price, side)
  {
    forall price: uint32, side: Side
      ensures LevelBalanced(b, h, b', price, side)
    {
      var scope := Scope(side, Some(price));
      assert InScope(o, scope) <==> (price, side) == (o.price, o.side);
      WrapFixed(b.VolumeAt(price, side));
    }
  }

  lemma RestBalanced(R: Rules, b: Book, o: Order)
    requires Tradable(b) && o.IsValid() && !CanCross(b, o)
    ensures Balanced(b, NewOrder(R, b, o).events, NewOrder(R, b, o).book)
  {
    var r := NewOrder(R, b, o);
    forall account, scope
      ensures Tally(r.events, account, scope) == Amount(Accepted(o), account, scope) + Amount(Rested(o), account, scope)
    {
      assert r.events == [Accepted(o)] + [Rested(o)];
      TallyConcat([Accepted(o)], [Rested(o)], account, scope);
      TallyOne(Accepted(o), account, scope);
      TallyOne(Rested(o), account, scope);
    }
    forall scope
      ensures RestingBalanced(b, r.events, r.book, scope)
    {
      PushOwnResting(R, b, o, scope);
    }
    LevelMoves(b, r.events, r.book, o, o.volume);
  }

  lemma CancelBalanced(b: Book, side: Side, id: uint64)
    requires Tradable(b) && id in b.For(side).index
    requires var o := b.For(side).index[id]; o in b.For(side).items && o.side == side
    ensures Balanced(b, CancelFrom(b, side, id).events, CancelFrom(b, side, id).book)
  {
    var r, o := CancelFrom(b, side, id), b.For(side).index[id];
    forall account, scope
      ensures Tally(r.events, account, scope) == Amount(Cancelled(o), account, scope)
    {
      TallyOne(Cancelled(o), account, scope);
    }
    forall scope
      ensures RestingBalanced(b, r.events, r.book, scope)
    {
      CancelResting(b, side, id, scope);
    }
    LevelMoves(b, r.events, r.book, o, 0 - o.volume);
  }

  lemma CancelResting(b: Book, side: Side, id: uint64, scope: Scope)
    requires Tradable(b) && id in b.For(side).index
    requires var o := b.For(side).index[id]; o in b.For(side).items && o.side == side
    ensures var o := b.For(side).index[id];
      Resting(CancelFrom(b, side, id).book, scope) + (if InScope(o, scope) then o.volume else 0) == Resting(b, scope)
  {
    RestingErase(b.For(side).items, b.For(side).index[id], scope.level);
  }

  // ----- Whole runs -----

  lemma NewOrderBalanced(R: Rules, b: Book, o: Order)
    requires R.Ok() && BookInv(R, b) && Tradable(b)
    ensures Balanced(b, NewOrder(R, b, o).events, NewOrder(R, b, o).book)
  {
    if !o.IsValid() {
      NothingHappened(b);
    } else if CanCross(b, o) {
      CrossMakers(R, b, o);
      CrossBalanced(R, b, o);
    } else {
      RestBalanced(R, b, o);
    }
  }

  lemma CancelOrderBalanced(R: Rules, b: Book, id: uint64)
    requires BookInv(R, b) && Tradable(b)
    ensures Balanced(b, CancelOrder(b, id).events, CancelOrder(b, id).book)
  {
    assert WellFormed(R.For(Buy), b.For(Buy)) && OneSided(Buy, b.For(Buy).items);
    assert WellFormed(R.For(Sell), b.For(Sell)) && OneSided(Sell, b.For(Sell).items);
    if id in b.buys.index {
      CancelBalanced(b, Buy, id);
    } else if id in b.sells.index {
      CancelBalanced(b, Sell, id);
    } else {
      NothingHappened(b);
    }
  }

  lemma StepBalanced(R: Rules, b: Book, c: Command)
    requires R.Ok() && BookInv(R, b) && Tradable(b)
    ensures Balanced(b, Step(R, b, c).events, Step(R, b, c).book)
  {
    match c {
      case New(order) => NewOrderBalanced(R, b, order);
      case Cancel(id) => CancelOrderBalanced(R, b, id);
      case Modify(id, price, volume, draw) =>
        if id in b.buys.index {
          var first := CancelOrder(b, id);
          var order := Replacement(b.buys.index[id], price, volume, draw);
          CancelOrderBalanced(R, b, id);
          CancelKeepsInv(R, b, id);
          NewOrderBalanced(R, first.book, order);
          BalancedChain(b, first.events, first.book, NewOrder(R, first.book, order).events, Step(R, b, c).book);
        } else {
          NothingHappened(b);
        }
    }
  }

  lemma {:induction false} RunBalanced(R: Rules, b: Book, commands: seq<Command>)
    requires R.Ok() && BookInv(R, b) && Tradable(b)
    ensures Balanced(b, Run(R, b, commands).events, Run(R, b, commands).book)
    decreases |commands|
  {
    if commands == [] {
      NothingHappened(b);
    } else {
      var first := Step(R, b, commands[0]);
      StepBalanced(R, b, commands[0]);
      StepKeepsInv(R, b, commands[0]);
      RunBalanced(R, first.book, commands[1..]);
      var rest := Run(R, first.book, commands[1..]);
      BalancedChain(b, first.events, first.book, rest.events, rest.book);
    }
  }

  /** Conservation, over any run from the empty book: on each side the accepted volume is resting, cancelled or
      traded, and the two sides have traded the same total. */
  lemma Conservation(R: Rules, commands: seq<Command>, side: Side)
    requires R.Ok()
    ensures var t := Run(R, EmptyBook, commands);
      var all := Scope(side, None);
      && Tally(t.events, AcceptedVolume, all) == Resting(t.book, all) + Tally(t.events, CancelledVolume, all)
           + TradedOn(t.events, side)
      && TradedOn(t.events, Buy) == TradedOn(t.events, Sell)
  {
    RunBalanced(R, EmptyBook, commands);
    var t := Run(R, EmptyBook, commands);
    assert RestingBalanced(EmptyBook, t.events, t.book, Scope(side, None));
    assert forall s :: SideBalanced(t.events, s);
    assert SideBalanced(t.events, Buy) && SideBalanced(t.events, Sell);
  }

  /** Volume traded by orders of one side, resting or incoming. */
  function TradedOn(h: seq<Event>, side: Side): nat {
    Tally(h, ExecutedVolume, Scope(side, None)) + Tally(h, TakenVolume, Scope(side, None))
  }

  /** What was executed against a level less the residues that came to rest there: all that the totals miss. */
  function Drift(h: seq<Event>, level: Scope): int {
    Tally(h, ExecutedVolume, level) - Tally(h, ResidueVolume, level)
  }

  /** The total of a level is its resting volume plus the drift, modulo 2^32; so it is the resting volume exactly when
      the drift is a multiple of 2^32. */
  ghost predicate LevelTotalIs(h: seq<Event>, b: Book, price: uint32, side: Side) {
    var level := Scope(side, Some(price));
    && b.VolumeAt(price, side) == Wrap32(Resting(b, level) + Drift(h, level))
    && (b.VolumeAt(price, side) == Wrap32(Resting(b, level)) <==> Drift(h, level) % TWO_32 == 0)
  }

  lemma LevelOf(h: seq<Event>, b: Book, price: uint32, side: Side)
    requires Balanced(EmptyBook, h, b)
    ensures LevelTotalIs(h, b, price, side)
  {
    var level := Scope(side, Some(price));
    assert RestingBalanced(EmptyBook, h, b, level) && LevelBalanced(EmptyBook, h, b, price, side);
    assert Resting(EmptyBook, level) == 0;
    WrapEqual(Resting(b, level), Drift(h, level));
  }

  /** What `volumes_` holds after any run from the empty book. Matching never touches it. */
  lemma LevelTotals(R: Rules, commands: seq<Command>, price: uint32, side: Side)
    requires R.Ok()
    ensures LevelTotalIs(Run(R, EmptyBook, commands).events, Run(R, EmptyBook, commands).book, price, side)
  {
    RunBalanced(R, EmptyBook, commands);
    var t := Run(R, EmptyBook, commands);
    LevelOf(t.events, t.book, price, side);
  }

  lemma WrapEqual(x: int, d: int)
    ensures Wrap32(x + d) == Wrap32(x) <==> d % TWO_32 == 0
  {
    var r, q := (x + d) % TWO_32, (x + d) / TWO_32;
    assert x + d == q * TWO_32 + r;
    assert x == x / TWO_32 * TWO_32 + x % TWO_32;
    assert Wrap32(x + d) == Wrap32(x) <==> r == x % TWO_32;
    if r == x % TWO_32 {
      DivModUnique(d, q - x / TWO_32, 0, TWO_32);
    }
    if d % TWO_32 == 0 {
      assert d == d / TWO_32 * TWO_32;
      DivModUnique(x, q - d / TWO_32, r, TWO_32);
    }
  }

  ghost predicate NoTrade(h: seq<Event>) {
    forall e :: e in h ==> !e.Executed?
  }

  ghost predicate NoResidue(h: seq<Event>) {
    forall e :: e in h ==> !e.RestedResidue?
  }

  lemma NewOrderResidueNeedsTrade(R: Rules, b: Book, o: Order)
    requires Tradable(b) && NoTrade(NewOrder(R, b, o).events)
    ensures NoResidue(NewOrder(R, b, o).events)
  {
    if o.IsValid() && CanCross(b, o) {
      var other := o.side.Opposite();
      MatchSpendsIncoming(R.For(other), o, b.For(other));
      var m := Match(R.For(other), o, b.For(other));
      assert m.trades != [];
      assert Executions(o, m.trades)[0] in NewOrder(R, b, o).events;
    }
  }

  lemma {:induction false} RunResidueNeedsTrade(R: Rules, b: Book, commands: seq<Command>)
    requires Tradable(b) && NoTrade(Run(R, b, commands).events)
    ensures NoResidue(Run(R, b, commands).events)
    decreases |commands|
  {
    if commands != [] {
      var first := Step(R, b, commands[0]);
      var rest := Run(R, first.book, commands[1..]);
      assert Run(R, b, commands).events == first.events + rest.events;
      RunResidueNeedsTrade(R, first.book, commands[1..]);
      StepResidueNeedsTrade(R, b, commands[0]);
    }
  }

  lemma StepResidueNeedsTrade(R: Rules, b: Book, c: Command)
    requires Tradable(b) && NoTrade(Step(R, b, c).events)
    ensures NoResidue(Step(R, b, c).events)
  {
    match c {
      case New(order) => NewOrderResidueNeedsTrade(R, b, order);
      case Cancel(_) =>
      case Modify(id, price, volume, draw) =>
        if id in b.buys.index {
          var first := CancelOrder(b, id);
          var order := Replacement(b.buys.index[id], price, volume, draw);
          assert Step(R, b, c).events == first.events + NewOrder(R, first.book, order).events;
          NewOrderResidueNeedsTrade(R, first.book, order);
        }
    }
  }

  lemma {:induction false} NoTally(h: seq<Event>, scope: Scope)
    requires NoTrade(h) && NoResidue(h)
    ensures Tally(h, ExecutedVolume, scope) == 0 && Tally(h, ResidueVolume, scope) == 0
  {
    if h != [] {
      assert h[0] in h;
      NoTally(h[1..], scope);
    }
  }

  lemma NoDrift(h: seq<Event>, b: Book, price: uint32, side: Side)
    requires LevelTotalIs(h, b, price, side) && NoTrade(h) && NoResidue(h)
    ensures b.VolumeAt(price, side) == Wrap32(Resting(b, Scope(side, Some(price))))
  {
    NoTally(h, Scope(side, Some(price)));
  }

  /** In every run in which nothing trades, `volumes_` is the resting volume of each level, modulo 2^32. */
  lemma LevelTotalsWithoutTrades(R: Rules, commands: seq<Command>, price: uint32, side: Side)
    requires R.Ok() && NoTrade(Run(R, EmptyBook, commands).events)
    ensures var b := Run(R, EmptyBook, commands).book;
      b.VolumeAt(price, side) == Wrap32(Resting(b, Scope(side, Some(price))))
  {
    var t := Run(R, EmptyBook, commands);
    LevelTotals(R, commands, price, side);
    RunResidueNeedsTrade(R, EmptyBook, commands);
    NoDrift(t.events, t.book, price, side);
  }

  /** A run in which it is not: 5 rest for sale at 100, 3 are bought; 2 are left but the total still says 5. */
  lemma LevelTotalsMissTrades(R: Rules)
    requires R.Ok()
    ensures var ask := Order(1, 100, 5, Sell, "a");
      var bid := Order(2, 100, 3, Buy, "b");
      var b := Run(R, EmptyBook, [New(ask), New(bid)]).book;
      Resting(b, Scope(Sell, Some(100))) == 2 && b.VolumeAt(100, Sell) == 5
  {
    var ask := Order(1, 100, 5, Sell, "a");
    var bid := Order(2, 100, 3, Buy, "b");
    var left := ask.(volume := 2);
    var b1 := Step(R, EmptyBook, New(ask)).book;
    assert b1.sells == Queue([ask], map[1 := ask]) && b1.buys == EmptyQueue && b1.VolumeAt(100, Sell) == 5;
    var q := AfterTrade(R.sell, b1.sells, 3);
    assert q.items == [left];
    assert Match(R.sell, bid, b1.sells) == MatchResult(bid.(volume := 0), q, [Trade(ask, 3)]);
    var b2 := Step(R, b1, New(bid)).book;
    assert b2.sells == q && b2.VolumeAt(100, Sell) == 5;
    assert [New(ask), New(bid)][1..] == [New(bid)] && [New(bid)][1..] == [];
    assert Run(R, b1, [New(bid)]).book == b2;
    assert [left][1..] == [] && AtLevel(left, Some(100)) && RestingIn([left], Some(100)) == left.volume;
  }
}
