/** The exchange and its thread pool as objects whose calls and worker steps update queues and books in place
    (core/Exchange.cpp:15-39, core/ThreadPool.cpp:9-24). The object carries the schedule that led to its state, so what
    is proved of every reachable state of the state machine holds of it. */
module Pool {
  import opened Orders
  import opened OrderBooks
  import opened Exchange
  import opened Workers
  import Engine

  /** The jobs that wait for one worker, by producer. */
  type Queues = map<nat, seq<Job>>

  function WithQueue(queues: Queues, producer: nat, queue: seq<Job>): Queues {
    queues[producer := queue]
  }

  /** The arrays of the pool and the exchange, one element for each shard, as a state of the state machine. */
  ghost function Assemble(issued: seq<Job>, tasks: seq<Queues>, running: seq<Option<Job>>,
                          done: seq<seq<Job>>, shards: seq<map<string, Book>>): (s: State)
    requires |tasks| == |running| == |shards| == |done| == NUM_SHARDS
    ensures |s.shards| == NUM_SHARDS
    ensures forall k :: 0 <= k < NUM_SHARDS ==> s.shards[k] == Shard(tasks[k], running[k], done[k], shards[k])
  {
    State(issued, [Shard(tasks[0], running[0], done[0], shards[0]), Shard(tasks[1], running[1], done[1], shards[1]),
                   Shard(tasks[2], running[2], done[2], shards[2]), Shard(tasks[3], running[3], done[3], shards[3])])
  }

  lemma SameState(s: State, t: State)
    requires |s.shards| == |t.shards| && s.issued == t.issued
    requires forall k :: 0 <= k < |s.shards| ==> s.shards[k] == t.shards[k]
    ensures s == t
  {
    assert s.shards == t.shards;
  }

  lemma AssembleEnqueue(R: Rules, hash: Hash, issued: seq<Job>, tasks: seq<Queues>, running: seq<Option<Job>>,
                        done: seq<seq<Job>>, shards: seq<map<string, Book>>, producer: nat, task: Task)
    requires |tasks| == |running| == |shards| == |done| == NUM_SHARDS
    requires WellTyped(Assemble(issued, tasks, running, done, shards))
    ensures var k := ShardFor(hash, task.symbol);
      var j := Job(|issued|, producer, k, task);
      var queue := if producer in tasks[k] then tasks[k][producer] else [];
      Assemble(issued + [j], tasks[k := WithQueue(tasks[k], producer, queue + [j])], running, done, shards)
        == Do(R, hash, Assemble(issued, tasks, running, done, shards), Enqueue(producer, task))
  {
    var k := ShardFor(hash, task.symbol);
    var j := Job(|issued|, producer, k, task);
    var queue := if producer in tasks[k] then tasks[k][producer] else [];
    SameState(Assemble(issued + [j], tasks[k := WithQueue(tasks[k], producer, queue + [j])], running, done, shards),
              Do(R, hash, Assemble(issued, tasks, running, done, shards), Enqueue(producer, task)));
  }

  lemma AssembleDequeue(R: Rules, hash: Hash, issued: seq<Job>, tasks: seq<Queues>, running: seq<Option<Job>>,
                        done: seq<seq<Job>>, shards: seq<map<string, Book>>, k: nat, producer: nat)
    requires |tasks| == |running| == |shards| == |done| == NUM_SHARDS && k < NUM_SHARDS
    requires WellTyped(Assemble(issued, tasks, running, done, shards))
    requires running[k].None? && producer in tasks[k] && tasks[k][producer] != []
    ensures var queue := tasks[k][producer];
      Assemble(issued, tasks[k := WithQueue(tasks[k], producer, queue[1..])], running[k := Some(queue[0])], done,
               shards)
        == Do(R, hash, Assemble(issued, tasks, running, done, shards), Dequeue(k, producer))
  {
    var queue := tasks[k][producer];
    SameState(Assemble(issued, tasks[k := WithQueue(tasks[k], producer, queue[1..])], running[k := Some(queue[0])],
                       done, shards),
              Do(R, hash, Assemble(issued, tasks, running, done, shards), Dequeue(k, producer)));
  }

  lemma AssembleFinish(R: Rules, hash: Hash, issued: seq<Job>, tasks: seq<Queues>, running: seq<Option<Job>>,
                       done: seq<seq<Job>>, shards: seq<map<string, Book>>, k: nat)
      returns (after: map<string, Book>)
    requires |tasks| == |running| == |shards| == |done| == NUM_SHARDS && k < NUM_SHARDS
    requires WellTyped(Assemble(issued, tasks, running, done, shards)) && running[k].Some?
    ensures var j := running[k].value;
      && IsRun(R, shards[k], j.task, after)
      && Assemble(issued, tasks, running[k := None], done[k := done[k] + [j]], shards[k := after])
           == Do(R, hash, Assemble(issued, tasks, running, done, shards), Finish(k))
  {
    var j := running[k].value;
    assert BooksTradable(Assemble(issued, tasks, running, done, shards).shards[k].books);
    after := RunTask(R, shards[k], j.task);
    SameState(Assemble(issued, tasks, running[k := None], done[k := done[k] + [j]], shards[k := after]),
              Do(R, hash, Assemble(issued, tasks, running, done, shards), Finish(k)));
  }

  /** The schedule leads to this state. */
  ghost predicate Leads(R: Rules, hash: Hash, schedule: seq<Action>, s: State) {
    && WellTyped(s)
    && forall k: nat {:trigger Asked(k)} :: Execute(R, hash, schedule) == Some(s)
  }

  lemma LeadsOn(R: Rules, hash: Hash, schedule: seq<Action>, s: State, a: Action)
    requires Leads(R, hash, schedule, s) && Enabled(s, a)
    ensures Leads(R, hash, schedule + [a], Do(R, hash, s, a))
  {
    assert Asked(0);
    assert (schedule + [a])[..|schedule|] == schedule;
  }

  class ShardedExchange {
    const buyLess: Comparator
    const sellLess: Comparator
    const hash: Hash
    /** tasks_ of the pool: one queue for each shard. */
    var tasks: seq<Queues>
    /** What each worker has taken off its queue and is running. */
    var running: seq<Option<Job>>
    /** shards_ of the exchange: the book objects of each shard, by symbol. */
    var shards: seq<map<string, Engine.OrderBook>>
    var nextTicket: nat
    ghost var books: seq<map<string, Book>>
    /** The objects that make up the books. */
    ghost var region: set<object>
    ghost var issued: seq<Job>
    ghost var done: seq<seq<Job>>
    ghost var schedule: seq<Action>

    ghost predicate Sized()
      reads this
    {
      |tasks| == |running| == |books| == |done| == NUM_SHARDS
    }

    ghost function TheRules(): Rules {
      Rules(buyLess, sellLess)
    }

    ghost function View(): State
      reads this
      requires Sized()
    {
      Assemble(issued, tasks, running, done, books)
    }

    /** The state is the one to which the schedule leads. */
    ghost predicate Reached()
      reads this
    {
      Sized() && nextTicket == |issued| && Leads(TheRules(), hash, schedule, View())
    }

    /** The book objects hold the books of that state, and no two of them, in one shard or in two, have an object in
        common. */
    ghost predicate Valid()
      reads this, region
    {
      Reached() && |shards| == NUM_SHARDS && this !in region && Kept(region, shards, TheRules(), books)
    }

    constructor (buyLess: Comparator, sellLess: Comparator, hash: Hash)
      requires PriceFirst(Buy, buyLess) && PriceFirst(Sell, sellLess)
      ensures Valid() && this.buyLess == buyLess && this.sellLess == sellLess && this.hash == hash && schedule == []
      ensures region == {}
    {
      this.buyLess, this.sellLess, this.hash := buyLess, sellLess, hash;
      tasks, running := [map[], map[], map[], map[]], [None, None, None, None];
      shards, books := [map[], map[], map[], map[]], [map[], map[], map[], map[]];
      nextTicket, region := 0, {};
      issued, done, schedule := [], [[], [], [], []], [];
    }

    /** ThreadPool::enqueue. */
    method EnqueueJob(producer: nat, task: Task)
      requires Valid()
      modifies this
      ensures Valid() && region == old(region) && schedule == old(schedule) + [Enqueue(producer, task)]
      ensures View() == Do(TheRules(), hash, old(View()), Enqueue(producer, task))
    {
      LeadsOn(TheRules(), hash, schedule, View(), Enqueue(producer, task));
      AssembleEnqueue(TheRules(), hash, issued, tasks, running, done, books, producer, task);
      var k := ShardFor(hash, task.symbol);
      var j := Job(nextTicket, producer, k, task);
      var queue := if producer in tasks[k] then tasks[k][producer] else [];
      tasks := tasks[k := WithQueue(tasks[k], producer, queue + [j])];
      nextTicket := nextTicket + 1;
      issued, schedule := issued + [j], schedule + [Enqueue(producer, task)];
    }

    /** Exchange::newOrder, called by some producer. */
    method NewOrder(producer: nat, symbol: string, order: Order)
      requires Valid()
      modifies this
      ensures Valid() && region == old(region)
      ensures schedule == old(schedule) + [Enqueue(producer, NewOrderTask(symbol, order))]
      ensures View() == Do(TheRules(), hash, old(View()), Enqueue(producer, NewOrderTask(symbol, order)))
    {
      EnqueueJob(producer, NewOrderTask(symbol, order));
    }

    /** Exchange::cancelOrder, called by some producer. */
    method CancelOrder(producer: nat, symbol: string, orderId: uint64)
      requires Valid()
      modifies this
      ensures Valid() && region == old(region)
      ensures schedule == old(schedule) + [Enqueue(producer, CancelOrderTask(symbol, orderId))]
      ensures View() == Do(TheRules(), hash, old(View()), Enqueue(producer, CancelOrderTask(symbol, orderId)))
    {
      EnqueueJob(producer, CancelOrderTask(symbol, orderId));
    }

    /** The worker of shard k, idle, tries to take the oldest job of a producer; the queue chooses the producer. */
    method TryDequeue(k: nat, producer: nat) returns (ok: bool)
      requires Valid() && k < NUM_SHARDS && running[k].None?
      modifies this
      ensures Valid() && region == old(region) && ok == (old(View()).shards[k].QueueOf(producer) != [])
      ensures !ok ==> View() == old(View()) && schedule == old(schedule)
      ensures ok ==> View() == Do(TheRules(), hash, old(View()), Dequeue(k, producer))
      ensures ok ==> schedule == old(schedule) + [Dequeue(k, producer)]
    {
      if producer !in tasks[k] || tasks[k][producer] == [] {
        return false;
      }
      ghost var s' := Do(TheRules(), hash, View(), Dequeue(k, producer));
      LeadsOn(TheRules(), hash, schedule, View(), Dequeue(k, producer));
      AssembleDequeue(TheRules(), hash, issued, tasks, running, done, books, k, producer);
      var queue := tasks[k][producer];
      running := running[k := Some(queue[0])];
      tasks := tasks[k := WithQueue(tasks[k], producer, queue[1..])];
      schedule := schedule + [Dequeue(k, producer)];
      ok := true;
      assert View() == s';
    }

    /** The body of a task. */
    method RunBooks(k: nat, task: Task, ghost after: map<string, Book>)
      requires k < |shards| == |books| && this !in region && Kept(region, shards, TheRules(), books)
      requires IsRun(TheRules(), books[k], task, after)
      modifies this`shards, this`books, this`region, region
      ensures |shards| == old(|shards|) && books == old(books)[k := after]
      ensures this !in region && Kept(region, shards, TheRules(), books) && fresh(region - old(region))
    {
      shards, region := RunTaskKept(region, shards, buyLess, sellLess, k, task, books, after);
      books := books[k := after];
    }

    /** The worker of shard k runs the job that it has taken: one book object of the shard changes, or is created. */
    method RunJob(k: nat)
      requires Valid() && k < NUM_SHARDS && running[k].Some?
      modifies this, region
      ensures Valid() && schedule == old(schedule) + [Finish(k)] && fresh(region - old(region))
      ensures View() == Do(TheRules(), hash, old(View()), Finish(k))
    {
      ghost var s' := Do(TheRules(), hash, View(), Finish(k));
      LeadsOn(TheRules(), hash, schedule, View(), Finish(k));
      ghost var after := AssembleFinish(TheRules(), hash, issued, tasks, running, done, books, k);
      var job := running[k].value;
      RunBooks(k, job.task, after);
      done := done[k := done[k] + [job]];
      running := running[k := None];
      schedule := schedule + [Finish(k)];
      assert View() == s';
    }

    /** Whatever calls and worker steps came before: the object of a symbol is in the symbol's shard, it is not crossed,
        and what it holds is the sequential run of the symbol's commands in the order in which its worker took them. */
    lemma BooksAreSound(k: nat, symbol: string)
      requires Valid() && k < NUM_SHARDS && symbol in shards[k]
      ensures k == hash(symbol) % NUM_SHARDS && BookInv(TheRules(), shards[k][symbol].Model())
      ensures shards[k][symbol].Model() == Run(TheRules(), EmptyBook, CommandsFor(symbol, TasksOf(done[k]))).book
    {
      assert Asked(0);
      assert Stand(shards[k], TheRules(), books[k]);
      assert symbol in View().shards[k].books;
      BooksNeverCrossed(TheRules(), hash, schedule, k, symbol);
      BookIsSequentialRun(TheRules(), hash, schedule, symbol);
    }
  }
}
