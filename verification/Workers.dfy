/** A worker's tasks on the OrderBook objects of its shard, one for each symbol (core/Exchange.cpp:19-39,
    core/ThreadPool.cpp:9-17): the objects end up as the sequential model of the exchange says, and none of them is
    touched by a task for another symbol. */
module Workers {
  import opened Orders
  import opened OrderQueues
  import opened Exchange
  import opened Engine
  import Spec = OrderBooks

  /** The objects that make up a book. */
  function Parts(book: OrderBook): set<object> {
    {book, book.buyOrders, book.sellOrders}
  }

  /** Marks the places where it is wanted what a book holds. */
  ghost predicate Asked(k: nat) { true }

  /** The object is a valid book and holds this value. */
  ghost predicate Holds(book: OrderBook, rules: Spec.Rules, value: Spec.Book)
    reads Parts(book)
  {
    forall k: nat {:trigger Asked(k)} :: book.Valid() && book.rules == rules && book.Model() == value
  }

  ghost function Region(objects: map<string, OrderBook>): set<object> {
    set symbol, o | symbol in objects && o in Parts(objects[symbol]) :: o
  }

  /** Books of different symbols have no object in common. */
  ghost predicate Separate(objects: map<string, OrderBook>) {
    forall s, t :: s in objects && t in objects && s != t ==> Parts(objects[s]) !! Parts(objects[t])
  }

  /** The objects of a shard hold these values. */
  ghost predicate Stand(objects: map<string, OrderBook>, rules: Spec.Rules, values: map<string, Spec.Book>)
    reads Region(objects)
  {
    && objects.Keys == values.Keys && Separate(objects)
    && forall s :: s in objects ==> Holds(objects[s], rules, values[s])
  }

  method Create(buyLess: Comparator, sellLess: Comparator) returns (book: OrderBook)
    requires PriceFirst(Buy, buyLess) && PriceFirst(Sell, sellLess)
    ensures fresh(Parts(book)) && Holds(book, Spec.Rules(buyLess, sellLess), Spec.EmptyBook)
  {
    book := new OrderBook(buyLess, sellLess);
  }

  /** What a task makes of the book of its symbol. */
  ghost function After(rules: Spec.Rules, value: Spec.Book, task: Task): Spec.Book
    requires Spec.Tradable(value)
  {
    match task
    case NewOrderTask(_, order) => Spec.NewOrder(rules, value, order).book
    case CancelOrderTask(_, id) => Spec.CancelOrder(value, id).book
  }

  ghost predicate Becomes(rules: Spec.Rules, value: Spec.Book, task: Task, value': Spec.Book) {
    forall k: nat {:trigger Asked(k)} :: Spec.Tradable(value) && value' == After(rules, value, task)
  }

  /** A task on the book of its symbol. */
  method RunOn(book: OrderBook, ghost rules: Spec.Rules, ghost value: Spec.Book, task: Task, ghost value': Spec.Book)
    requires Holds(book, rules, value) && Becomes(rules, value, task, value')
    modifies Parts(book)
    ensures Holds(book, rules, value')
  {
    assert Asked(0);
    match task
    case NewOrderTask(_, order) =>
      var flags := book.NewOrder(order);
    case CancelOrderTask(_, id) =>
      var flags := book.CancelOrder(id);
  }

  /** A book with nothing in it for a symbol that has none yet. */
  method Provide(objects: map<string, OrderBook>, buyLess: Comparator, sellLess: Comparator, symbol: string,
                 ghost rules: Spec.Rules, ghost values: map<string, Spec.Book>)
      returns (objects': map<string, OrderBook>)
    requires PriceFirst(Buy, buyLess) && PriceFirst(Sell, sellLess) && rules == Spec.Rules(buyLess, sellLess)
    requires Stand(objects, rules, values)
    ensures Stand(objects', rules, values[symbol := BookOf(values, symbol)])
    ensures fresh(Region(objects') - Region(objects))
    ensures symbol in objects' && (Parts(objects'[symbol]) <= Region(objects) || fresh(Parts(objects'[symbol])))
  {
    objects' := objects;
    if symbol !in objects {
      var book := Create(buyLess, sellLess);
      objects' := objects[symbol := book];
      forall s | s in objects
        ensures Holds(objects[s], rules, values[s])
      {
        assert Parts(objects[s]) !! Parts(book);
        assert old(Holds(objects[s], rules, values[s]));
      }
    } else {
      assert values[symbol := BookOf(values, symbol)] == values;
    }
  }

  /** A task on the book of its symbol leaves those of the other symbols alone. */
  method RunAt(objects: map<string, OrderBook>, ghost rules: Spec.Rules, ghost values: map<string, Spec.Book>,
               task: Task, ghost value': Spec.Book)
    requires Stand(objects, rules, values) && task.symbol in objects
    requires Becomes(rules, values[task.symbol], task, value')
    modifies Parts(objects[task.symbol])
    ensures Stand(objects, rules, values[task.symbol := value'])
  {
    RunOn(objects[task.symbol], rules, values[task.symbol], task, value');
    forall s | s in objects && s != task.symbol
      ensures Holds(objects[s], rules, values[s])
    {
      assert Parts(objects[s]) !! Parts(objects[task.symbol]);
      assert old(Holds(objects[s], rules, values[s]));
    }
  }

  lemma TaskBecomes(rules: Spec.Rules, values: map<string, Spec.Book>, task: Task) returns (after: Spec.Book)
    requires BooksTradable(values)
    ensures Becomes(rules, BookOf(values, task.symbol), task, after)
    ensures task.symbol in values || task.NewOrderTask? ==> RunTask(rules, values, task) == values[task.symbol := after]
    ensures !(task.symbol in values || task.NewOrderTask?) ==> RunTask(rules, values, task) == values
  {
    after := After(rules, BookOf(values, task.symbol), task);
  }

  /** The task on the book of its symbol, which is created if need be. */
  method RunFor(objects: map<string, OrderBook>, buyLess: Comparator, sellLess: Comparator, task: Task,
                ghost values: map<string, Spec.Book>, ghost after: Spec.Book)
      returns (objects': map<string, OrderBook>)
    requires PriceFirst(Buy, buyLess) && PriceFirst(Sell, sellLess)
    requires Stand(objects, Spec.Rules(buyLess, sellLess), values)
    requires Becomes(Spec.Rules(buyLess, sellLess), BookOf(values, task.symbol), task, after)
    modifies Region(objects)
    ensures Stand(objects', Spec.Rules(buyLess, sellLess), values[task.symbol := after])
    ensures fresh(Region(objects') - Region(objects))
  {
    objects' := Provide(objects, buyLess, sellLess, task.symbol, Spec.Rules(buyLess, sellLess), values);
    RunAt(objects', Spec.Rules(buyLess, sellLess), values[task.symbol := BookOf(values, task.symbol)], task, after);
    SetTwice(values, task.symbol, BookOf(values, task.symbol), after);
  }

  lemma SetTwice(values: map<string, Spec.Book>, symbol: string, a: Spec.Book, b: Spec.Book)
    ensures values[symbol := a][symbol := b] == values[symbol := b]
  {
  }

  /** A new order creates the book of its symbol when there is none yet; a cancellation does not. */
  method RunTaskOn(objects: map<string, OrderBook>, buyLess: Comparator, sellLess: Comparator, task: Task,
                   ghost values: map<string, Spec.Book>)
      returns (objects': map<string, OrderBook>)
    requires PriceFirst(Buy, buyLess) && PriceFirst(Sell, sellLess) && BooksTradable(values)
    requires Stand(objects, Spec.Rules(buyLess, sellLess), values)
    modifies Region(objects)
    ensures Stand(objects', Spec.Rules(buyLess, sellLess), RunTask(Spec.Rules(buyLess, sellLess), values, task))
    ensures fresh(Region(objects') - Region(objects))
  {
    ghost var after := TaskBecomes(Spec.Rules(buyLess, sellLess), values, task);
    objects' := objects;
    if task.NewOrderTask? || task.symbol in objects {
      objects' := RunFor(objects, buyLess, sellLess, task, values, after);
    }
  }

  /** All tasks of a shard in the order in which its worker takes them. */
  method Work(buyLess: Comparator, sellLess: Comparator, tasks: seq<Task>) returns (objects: map<string, OrderBook>)
    requires PriceFirst(Buy, buyLess) && PriceFirst(Sell, sellLess)
    ensures Stand(objects, Spec.Rules(buyLess, sellLess), FoldTasks(Spec.Rules(buyLess, sellLess), tasks))
    ensures fresh(Region(objects))
  {
    ghost var rules := Spec.Rules(buyLess, sellLess);
    objects := map[];
    var i := 0;
    while i < |tasks|
      invariant 0 <= i <= |tasks| && Stand(objects, rules, FoldTasks(rules, tasks[..i]))
      invariant fresh(Region(objects))
    {
      assert tasks[..i + 1][..i] == tasks[..i];
      objects := RunTaskOn(objects, buyLess, sellLess, tasks[i], FoldTasks(rules, tasks[..i]));
      i := i + 1;
    }
    assert tasks[..i] == tasks;
  }

  // ----- All shards -----

  ghost predicate Apart(shards: seq<map<string, OrderBook>>) {
    forall j, k :: 0 <= j < |shards| && 0 <= k < |shards| && j != k ==> Region(shards[j]) !! Region(shards[k])
  }

  ghost function Regions(shards: seq<map<string, OrderBook>>): set<object> {
    set k, o | 0 <= k < |shards| && o in Region(shards[k]) :: o
  }

  /** The objects of all shards hold these values, and no two shards have an object in common. */
  ghost predicate AllStand(shards: seq<map<string, OrderBook>>, rules: Spec.Rules, values: seq<map<string, Spec.Book>>)
    reads Regions(shards)
  {
    && |shards| == |values| && Apart(shards)
    && forall k :: 0 <= k < |shards| ==> Stand(shards[k], rules, values[k])
  }

  /** This is what the books of a shard become. */
  ghost predicate IsRun(rules: Spec.Rules, values: map<string, Spec.Book>, task: Task,
                        values': map<string, Spec.Book>) {
    forall k: nat {:trigger Asked(k)} :: BooksTradable(values) && values' == RunTask(rules, values, task)
  }

  /** A task in a shard leaves alone all books that have no object in common with its own. */
  method RunTaskTo(objects: map<string, OrderBook>, buyLess: Comparator, sellLess: Comparator, task: Task,
                   ghost values: map<string, Spec.Book>, ghost values': map<string, Spec.Book>,
                   ghost others: set<(OrderBook, Spec.Book)>)
      returns (objects': map<string, OrderBook>)
    requires PriceFirst(Buy, buyLess) && PriceFirst(Sell, sellLess)
    requires Stand(objects, Spec.Rules(buyLess, sellLess), values)
    requires IsRun(Spec.Rules(buyLess, sellLess), values, task, values')
    requires forall p :: p in others ==>
               Parts(p.0) !! Region(objects) && Holds(p.0, Spec.Rules(buyLess, sellLess), p.1)
    modifies Region(objects)
    ensures Stand(objects', Spec.Rules(buyLess, sellLess), values')
    ensures fresh(Region(objects') - Region(objects))
    ensures forall p :: p in others ==> Holds(p.0, Spec.Rules(buyLess, sellLess), p.1)
  {
    assert Asked(0);
    objects' := RunTaskOn(objects, buyLess, sellLess, task, values);
    forall p | p in others
      ensures Holds(p.0, Spec.Rules(buyLess, sellLess), p.1)
    {
      assert old(Holds(p.0, Spec.Rules(buyLess, sellLess), p.1));
    }
  }

  lemma PartsAreApart(shards: seq<map<string, OrderBook>>, j: nat, symbol: string, k: nat)
    requires Apart(shards) && j < |shards| && k < |shards| && j != k && symbol in shards[j]
    ensures Parts(shards[j][symbol]) !! Region(shards[k]) && Parts(shards[j][symbol]) <= Regions(shards)
  {
    assert Parts(shards[j][symbol]) <= Region(shards[j]);
    assert Region(shards[j]) !! Region(shards[k]);
  }

  /** The books in the shards other than k, with what they hold. */
  ghost function Others(shards: seq<map<string, OrderBook>>, values: seq<map<string, Spec.Book>>, k: nat)
      : set<(OrderBook, Spec.Book)>
    requires |shards| == |values| && forall j :: 0 <= j < |shards| ==> shards[j].Keys == values[j].Keys
  {
    set j, s | 0 <= j < |shards| && j != k && s in shards[j] :: (shards[j][s], values[j][s])
  }

  lemma OthersHold(shards: seq<map<string, OrderBook>>, rules: Spec.Rules, values: seq<map<string, Spec.Book>>, k: nat)
    requires AllStand(shards, rules, values) && k < |shards|
    ensures forall p :: p in Others(shards, values, k) ==> Parts(p.0) !! Region(shards[k]) && Holds(p.0, rules, p.1)
  {
    forall p | p in Others(shards, values, k)
      ensures Parts(p.0) !! Region(shards[k]) && Holds(p.0, rules, p.1)
    {
      var j, s :| 0 <= j < |shards| && j != k && s in shards[j] && p == (shards[j][s], values[j][s]);
      assert Stand(shards[j], rules, values[j]);
      PartsAreApart(shards, j, s, k);
    }
  }

  lemma OthersStand(shards: seq<map<string, OrderBook>>, rules: Spec.Rules, values: seq<map<string, Spec.Book>>, k: nat)
    requires |shards| == |values| && k < |shards|
    requires forall j :: 0 <= j < |shards| ==> shards[j].Keys == values[j].Keys && Separate(shards[j])
    requires forall p :: p in Others(shards, values, k) ==> Holds(p.0, rules, p.1)
    ensures forall j :: 0 <= j < |shards| && j != k ==> Stand(shards[j], rules, values[j])
  {
    forall j | 0 <= j < |shards| && j != k
      ensures Stand(shards[j], rules, values[j])
    {
      assert forall s :: s in shards[j] ==> (shards[j][s], values[j][s]) in Others(shards, values, k);
    }
  }

  /** A task in one shard leaves the books of the others alone. */
  method RunTaskIn(shards: seq<map<string, OrderBook>>, buyLess: Comparator, sellLess: Comparator, k: nat, task: Task,
                   ghost values: seq<map<string, Spec.Book>>, ghost values': map<string, Spec.Book>)
      returns (shards': seq<map<string, OrderBook>>)
    requires PriceFirst(Buy, buyLess) && PriceFirst(Sell, sellLess) && k < |shards|
    requires AllStand(shards, Spec.Rules(buyLess, sellLess), values)
    requires IsRun(Spec.Rules(buyLess, sellLess), values[k], task, values')
    modifies Region(shards[k])
    ensures AllStand(shards', Spec.Rules(buyLess, sellLess), values[k := values'])
    ensures fresh(Regions(shards') - Regions(shards))
  {
    ghost var rules := Spec.Rules(buyLess, sellLess);
    OthersHold(shards, rules, values, k);
    var objects := RunTaskTo(shards[k], buyLess, sellLess, task, values[k], values', Others(shards, values, k));
    shards' := shards[k := objects];
    OthersStand(shards, rules, values, k);
    forall j | 0 <= j < |shards| && j != k
      ensures Region(shards[j]) !! Region(objects)
    {
      assert Region(shards[j]) !! Region(shards[k]);
    }
  }

  /** The same for objects within a region, of which the details are wanted only where it is asked for. */
  ghost predicate Kept(region: set<object>, shards: seq<map<string, OrderBook>>, rules: Spec.Rules,
                       values: seq<map<string, Spec.Book>>)
    reads region
  {
    forall k: nat {:trigger Asked(k)} ::
      rules.Ok() && Regions(shards) <= region && AllStand(shards, rules, values)
  }

  method RunTaskKept(ghost region: set<object>, shards: seq<map<string, OrderBook>>, buyLess: Comparator,
                     sellLess: Comparator, k: nat, task: Task, ghost values: seq<map<string, Spec.Book>>,
                     ghost values': map<string, Spec.Book>)
      returns (shards': seq<map<string, OrderBook>>, ghost region': set<object>)
    requires Kept(region, shards, Spec.Rules(buyLess, sellLess), values) && k < |shards| == |values|
    requires IsRun(Spec.Rules(buyLess, sellLess), values[k], task, values')
    modifies region
    ensures |shards'| == |shards| && Kept(region', shards', Spec.Rules(buyLess, sellLess), values[k := values'])
    ensures region <= region' && fresh(region' - region)
  {
    assert Asked(0);
    shards' := RunTaskIn(shards, buyLess, sellLess, k, task, values, values');
    region' := region + Regions(shards');
  }
}
