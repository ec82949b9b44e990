/** The sharded exchange as a state machine (core/Exchange.cpp, core/ThreadPool.cpp): producers enqueue tasks, and one
    worker for each shard takes tasks off its queue and runs them on the books of that shard. */
module Exchange {
  import opened Orders
  import opened OrderQueues
  import opened OrderBooks

  const NUM_SHARDS: nat := 4

  datatype Task = NewOrderTask(symbol: string, order: Order) | CancelOrderTask(symbol: string, orderId: uint64)

  /** A task handed to the pool by one of any number of producers; the ticket is its number in the order of issue. */
  datatype Job = Job(ticket: nat, producer: nat, shard: nat, task: Task)

  /** The concurrent queue of a shard is first in, first out for each producer, with a free choice between producers.
      `done` lists the jobs that were run, in order. */
  datatype Shard = Shard(queues: map<nat, seq<Job>>, running: Option<Job>, done: seq<Job>, books: map<string, Book>) {
    function QueueOf(producer: nat): seq<Job> {
      if producer in queues then queues[producer] else []
    }

    /** The jobs taken off the queue, in order. */
    function Taken(): seq<Job> {
      if running.Some? then done + [running.value] else done
    }
  }

  datatype State = State(issued: seq<Job>, shards: seq<Shard>)

  const IdleShard := Shard(map[], None, [], map[])

  const Initial := State([], [IdleShard, IdleShard, IdleShard, IdleShard])

  /** The hash function that spreads symbols over shards. */
  type Hash = string -> nat

  function ShardFor(hash: Hash, symbol: string): (k: nat)
    ensures k < NUM_SHARDS
  {
    hash(symbol) % NUM_SHARDS
  }

  // ----- Running one task -----

  ghost predicate BooksTradable(books: map<string, Book>) {
    forall symbol :: symbol in books ==> Tradable(books[symbol])
  }

  function BookOf(books: map<string, Book>, symbol: string): Book {
    if symbol in books then books[symbol] else EmptyBook
  }

  /** A new order creates the book of an unknown symbol; a cancellation does not. */
  function RunTask(R: Rules, books: map<string, Book>, task: Task): (r: map<string, Book>)
    requires BooksTradable(books)
    ensures BooksTradable(r)
  {
    match task
    case NewOrderTask(symbol, order) =>
      books[symbol := NewOrder(R, BookOf(books, symbol), order).book]
    case CancelOrderTask(symbol, id) =>
      if symbol in books then books[symbol := CancelOrder(books[symbol], id).book] else books
  }

  /** A task changes the book of its own symbol only. A cancellation of an order that rests there takes it out; a new
      order that is valid and trades with nothing rests there. */
  lemma TaskTakesEffect(R: Rules, books: map<string, Book>, task: Task)
    requires BooksTradable(books)
    ensures var r := RunTask(R, books, task);
      && (forall symbol :: symbol != task.symbol ==>
            (symbol in r <==> symbol in books) && BookOf(r, symbol) == BookOf(books, symbol))
      && (task.symbol in r <==> task.symbol in books || task.NewOrderTask?)
      && (task.CancelOrderTask? && task.orderId in BookOf(books, task.symbol).buys.index ==>
            task.orderId !in BookOf(r, task.symbol).buys.index)
      && (task.CancelOrderTask? && task.orderId !in BookOf(books, task.symbol).buys.index ==>
            task.orderId !in BookOf(r, task.symbol).sells.index)
      && (task.NewOrderTask? && task.order.IsValid() && !CanCross(BookOf(books, task.symbol), task.order) ==>
            task.order in BookOf(r, task.symbol).For(task.order.side).items)
  {
    if task.NewOrderTask? {
      InsertMembers(R.For(task.order.side), BookOf(books, task.symbol).For(task.order.side).items, task.order);
    }
  }

  // ----- Steps -----

  datatype Action =
    | Enqueue(producer: nat, task: Task)  // a producer hands in a command
    | Dequeue(shard: nat, producer: nat)  // the shard's worker takes the oldest job of some producer
    | Finish(shard: nat)                  // the shard's worker has run its job

  ghost predicate WellTyped(s: State) {
    |s.shards| == NUM_SHARDS && forall k :: 0 <= k < NUM_SHARDS ==> BooksTradable(s.shards[k].books)
  }

  predicate Enabled(s: State, a: Action)
    requires |s.shards| == NUM_SHARDS
  {
    match a
    case Enqueue(_, _) => true
    case Dequeue(k, p) => k < NUM_SHARDS && s.shards[k].running.None? && s.shards[k].QueueOf(p) != []
    case Finish(k) => k < NUM_SHARDS && s.shards[k].running.Some?
  }

  function WithJob(shard: Shard, j: Job): Shard {
    shard.(queues := shard.queues[j.producer := shard.QueueOf(j.producer) + [j]])
  }

  function WithTaken(shard: Shard, p: nat): Shard
    requires shard.QueueOf(p) != []
  {
    shard.(queues := shard.queues[p := shard.QueueOf(p)[1..]], running := Some(shard.QueueOf(p)[0]))
  }

  function WithFinished(R: Rules, shard: Shard): (r: Shard)
    requires shard.running.Some? && BooksTradable(shard.books)
    ensures BooksTradable(r.books)
  {
    var j := shard.running.value;
    shard.(running := None, done := shard.done + [j], books := RunTask(R, shard.books, j.task))
  }

  function Do(R: Rules, hash: Hash, s: State, a: Action): (r: State)
    requires WellTyped(s) && Enabled(s, a)
    ensures WellTyped(r)
  {
    match a
    case Enqueue(p, task) =>
      var k := ShardFor(hash, task.symbol);
      var j := Job(|s.issued|, p, k, task);
      State(s.issued + [j], s.shards[k := WithJob(s.shards[k], j)])
    case Dequeue(k, p) => s.(shards := s.shards[k := WithTaken(s.shards[k], p)])
    case Finish(k) => s.(shards := s.shards[k := WithFinished(R, s.shards[k])])
  }

  /** The state that an interleaving of producers and workers leads to, if every step of it is possible. */
  function Execute(R: Rules, hash: Hash, schedule: seq<Action>): (s: Option<State>)
    ensures s.Some? ==> WellTyped(s.value)
  {
    if schedule == [] then
      Some(Initial)
    else
      var before := Execute(R, hash, schedule[..|schedule| - 1]);
      var a := schedule[|schedule| - 1];
      if before.None? || !Enabled(before.value, a) then None else Some(Do(R, hash, before.value, a))
  }

  // ----- Every job is pending, running or run exactly once, and producers are served in order -----

  /** The jobs of one producer for one shard, in order. */
  function Select(jobs: seq<Job>, k: nat, p: nat): seq<Job> {
    if jobs == [] then []
    else
      Select(jobs[..|jobs| - 1], k, p) +
        if jobs[|jobs| - 1].shard == k && jobs[|jobs| - 1].producer == p then [jobs[|jobs| - 1]] else []
  }

  lemma {:induction false} SelectMembers(jobs: seq<Job>, k: nat, p: nat)
    ensures forall j :: j in Select(jobs, k, p) <==> j in jobs && j.shard == k && j.producer == p
  {
    if jobs != [] {
      var front, last := jobs[..|jobs| - 1], jobs[|jobs| - 1];
      assert jobs == front + [last];
      SelectMembers(front, k, p);
    }
  }

  lemma SelectAppend(jobs: seq<Job>, j: Job, k: nat, p: nat)
    ensures Select(jobs + [j], k, p) == Select(jobs, k, p) + if j.shard == k && j.producer == p then [j] else []
  {
    assert (jobs + [j])[..|jobs|] == jobs;
  }

  /** What was taken of one producer's jobs, followed by what is still queued, is what the producer issued. */
  ghost predicate InOrder(shard: Shard, issued: seq<Job>, k: nat, p: nat) {
    Select(shard.Taken(), k, p) + shard.QueueOf(p) == Select(issued, k, p)
  }

  ghost predicate TakenHere(shard: Shard, issued: seq<Job>, k: nat) {
    forall j :: j in shard.Taken() ==> j.shard == k && j in issued
  }

  ghost predicate ShardInv(shard: Shard, issued: seq<Job>, k: nat) {
    TakenHere(shard, issued, k) && forall p: nat :: InOrder(shard, issued, k, p)
  }

  ghost predicate QueueInv(hash: Hash, s: State) {
    && |s.shards| == NUM_SHARDS
    && (forall t :: 0 <= t < |s.issued| ==>
          s.issued[t].ticket == t && s.issued[t].shard == hash(s.issued[t].task.symbol) % NUM_SHARDS)
    && (forall k :: 0 <= k < NUM_SHARDS ==> ShardInv(s.shards[k], s.issued, k))
  }

  lemma IssueKeepsOrder(shard: Shard, issued: seq<Job>, k: nat, j: Job)
    requires ShardInv(shard, issued, k)
    ensures j.shard == k ==> ShardInv(WithJob(shard, j), issued + [j], k)
    ensures j.shard != k ==> ShardInv(shard, issued + [j], k)
  {
    var r := if j.shard == k then WithJob(shard, j) else shard;
    forall p: nat
      ensures InOrder(r, issued + [j], k, p)
    {
      assert InOrder(shard, issued, k, p);
      SelectAppend(issued, j, k, p);
    }
  }

  lemma TakeKeepsProducer(shard: Shard, issued: seq<Job>, k: nat, q: nat, p: nat)
    requires shard.running.None? && shard.QueueOf(q) != [] && InOrder(shard, issued, k, p)
    requires shard.QueueOf(q)[0].shard == k && shard.QueueOf(q)[0].producer == q
    ensures InOrder(WithTaken(shard, q), issued, k, p)
  {
    SelectAppend(shard.done, shard.QueueOf(q)[0], k, p);
    if p == q {
      assert [shard.QueueOf(q)[0]] + shard.QueueOf(q)[1..] == shard.QueueOf(q);
    }
  }

  lemma TakeKeepsOrder(shard: Shard, issued: seq<Job>, k: nat, q: nat)
    requires ShardInv(shard, issued, k) && shard.running.None? && shard.QueueOf(q) != []
    ensures ShardInv(WithTaken(shard, q), issued, k)
  {
    var r, first := WithTaken(shard, q), shard.QueueOf(q)[0];
    assert first in issued && first.shard == k && first.producer == q by {
      assert InOrder(shard, issued, k, q);
      assert first in Select(issued, k, q);
      SelectMembers(issued, k, q);
    }
    assert TakenHere(r, issued, k) by {
      assert r.Taken() == shard.done + [first];
    }
    forall p: nat
      ensures InOrder(r, issued, k, p)
    {
      TakeKeepsProducer(shard, issued, k, q, p);
    }
  }

  lemma FinishKeepsOrder(R: Rules, shard: Shard, issued: seq<Job>, k: nat)
    requires ShardInv(shard, issued, k) && shard.running.Some? && BooksTradable(shard.books)
    ensures ShardInv(WithFinished(R, shard), issued, k)
  {
    var r := WithFinished(R, shard);
    assert r.Taken() == shard.Taken();
    forall p: nat
      ensures InOrder(r, issued, k, p)
    {
      assert InOrder(shard, issued, k, p);
    }
  }

  lemma StepKeepsQueueInv(R: Rules, hash: Hash, s: State, a: Action)
    requires WellTyped(s) && Enabled(s, a) && QueueInv(hash, s)
    ensures QueueInv(hash, Do(R, hash, s, a))
  {
    var r := Do(R, hash, s, a);
    forall k | 0 <= k < NUM_SHARDS
      ensures ShardInv(r.shards[k], r.issued, k)
    {
      match a {
        case Enqueue(_, _) => IssueKeepsOrder(s.shards[k], s.issued, k, r.issued[|s.issued|]);
        case Dequeue(i, p) => if i == k { TakeKeepsOrder(s.shards[k], s.issued, k, p); }
        case Finish(i) => if i == k { FinishKeepsOrder(R, s.shards[k], s.issued, k); }
      }
    }
  }

  lemma InitialQueueInv(hash: Hash)
    ensures QueueInv(hash, Initial)
  {
  }

  lemma {:induction false} QueueInvHolds(R: Rules, hash: Hash, schedule: seq<Action>)
    requires Execute(R, hash, schedule).Some?
    ensures QueueInv(hash, Execute(R, hash, schedule).value)
  {
    if schedule != [] {
      var before, a := Execute(R, hash, schedule[..|schedule| - 1]).value, schedule[|schedule| - 1];
      assert QueueInv(hash, before) by {
        QueueInvHolds(R, hash, schedule[..|schedule| - 1]);
      }
      assert QueueInv(hash, Do(R, hash, before, a)) by {
        StepKeepsQueueInv(R, hash, before, a);
      }
      assert Execute(R, hash, schedule).value == Do(R, hash, before, a);
    } else {
      InitialQueueInv(hash);
    }
  }

  /** Tickets in increasing order, so no job twice. */
  ghost predicate Increasing(jobs: seq<Job>) {
    forall a, b :: 0 <= a < b < |jobs| ==> jobs[a].ticket < jobs[b].ticket
  }

  lemma {:induction false} SelectIncreasing(jobs: seq<Job>, k: nat, p: nat)
    requires Increasing(jobs)
    ensures Increasing(Select(jobs, k, p))
  {
    if jobs != [] {
      var front, last := jobs[..|jobs| - 1], jobs[|jobs| - 1];
      SelectIncreasing(front, k, p);
      SelectMembers(front, k, p);
      var r := Select(front, k, p);
      forall a | 0 <= a < |r|
        ensures r[a].ticket < last.ticket
      {
        assert r[a] in r;
        var i :| 0 <= i < |front| && front[i] == r[a];
        assert jobs[i] == front[i];
      }
    }
  }

  /** In how many places of a list a job stands. */
  function Count(jobs: seq<Job>, j: Job): nat {
    multiset(jobs)[j]
  }

  lemma {:induction false} SelectKeepsCount(jobs: seq<Job>, j: Job)
    ensures Count(Select(jobs, j.shard, j.producer), j) == Count(jobs, j)
  {
    if jobs != [] {
      var front, last := jobs[..|jobs| - 1], jobs[|jobs| - 1];
      assert jobs == front + [last];
      SelectKeepsCount(front, j);
    }
  }

  lemma {:induction false} IncreasingCountsOnce(jobs: seq<Job>, j: Job)
    requires Increasing(jobs)
    ensures Count(jobs, j) == if j in jobs then 1 else 0
  {
    if jobs != [] {
      var front, last := jobs[..|jobs| - 1], jobs[|jobs| - 1];
      assert jobs == front + [last];
      IncreasingCountsOnce(front, j);
      forall i | 0 <= i < |front|
        ensures front[i] != last
      {
        assert jobs[i].ticket < last.ticket;
      }
    }
  }

  lemma OnceInShard(shard: Shard, issued: seq<Job>, j: Job)
    requires ShardInv(shard, issued, j.shard) && Increasing(issued) && j in issued
    ensures
      Count(shard.QueueOf(j.producer), j) + (if shard.running == Some(j) then 1 else 0) + Count(shard.done, j) == 1
  {
    var k, p := j.shard, j.producer;
    assert InOrder(shard, issued, k, p);
    SelectMembers(issued, k, p);
    SelectIncreasing(issued, k, p);
    IncreasingCountsOnce(Select(issued, k, p), j);
    SelectKeepsCount(shard.Taken(), j);
    assert Count(Select(issued, k, p), j) == Count(Select(shard.Taken(), k, p), j) + Count(shard.QueueOf(p), j);
  }

  lemma QueuedWhereIssued(shard: Shard, issued: seq<Job>, k: nat, p: nat, j: Job)
    requires ShardInv(shard, issued, k) && j in shard.QueueOf(p)
    ensures j.shard == k && j.producer == p
  {
    assert InOrder(shard, issued, k, p);
    assert j in Select(shard.Taken(), k, p) + shard.QueueOf(p);
    SelectMembers(issued, k, p);
  }

  /** In every reachable state every issued job is in exactly one place: once in the queue of its shard, or running
      there, or once in the list of what was run there; and in no other queue and no other shard. */
  lemma ExactlyOnce(R: Rules, hash: Hash, schedule: seq<Action>, j: Job)
    requires Execute(R, hash, schedule).Some? && j in Execute(R, hash, schedule).value.issued
    ensures var s, k := Execute(R, hash, schedule).value, hash(j.task.symbol) % NUM_SHARDS;
      && (Count(s.shards[k].QueueOf(j.producer), j) + (if s.shards[k].running == Some(j) then 1 else 0)
            + Count(s.shards[k].done, j) == 1)
      && (forall i :: 0 <= i < NUM_SHARDS && i != k ==> j !in s.shards[i].Taken())
      && (forall i, p: nat :: 0 <= i < NUM_SHARDS && (i != k || p != j.producer) ==> j !in s.shards[i].QueueOf(p))
  {
    QueueInvHolds(R, hash, schedule);
    var s := Execute(R, hash, schedule).value;
    OnceInShard(s.shards[j.shard], s.issued, j);
    forall i, p: nat | 0 <= i < NUM_SHARDS && j in s.shards[i].QueueOf(p)
      ensures i == j.shard && p == j.producer
    {
      QueuedWhereIssued(s.shards[i], s.issued, i, p, j);
    }
    forall i | 0 <= i < NUM_SHARDS && j in s.shards[i].Taken()
      ensures i == j.shard
    {
      assert ShardInv(s.shards[i], s.issued, i);
    }
  }

  /** Producers are served in order: what a shard's worker has taken of one producer's jobs is a prefix of what that
      producer issued for the shard. */
  lemma ServedInOrder(R: Rules, hash: Hash, schedule: seq<Action>, k: nat, p: nat)
    requires Execute(R, hash, schedule).Some? && k < NUM_SHARDS
    ensures var s := Execute(R, hash, schedule).value;
      Select(s.shards[k].Taken(), k, p) <= Select(s.issued, k, p)
  {
    QueueInvHolds(R, hash, schedule);
    var s := Execute(R, hash, schedule).value;
    assert InOrder(s.shards[k], s.issued, k, p);
  }

  // ----- Which shard -----

  /** The job waits for this shard's worker, or that worker has taken it. */
  ghost predicate StandsIn(s: State, k: nat, j: Job) {
    k < |s.shards| && (j in s.shards[k].QueueOf(j.producer) || j in s.shards[k].Taken())
  }

  /** In every reachable state a job stands in the shard that the hash of its symbol leaves as remainder, and in no
      other. */
  lemma JobsStandByHash(R: Rules, hash: Hash, schedule: seq<Action>, k: nat, j: Job)
    requires Execute(R, hash, schedule).Some? && j in Execute(R, hash, schedule).value.issued
    ensures StandsIn(Execute(R, hash, schedule).value, k, j) <==> k == hash(j.task.symbol) % NUM_SHARDS
  {
    var s := Execute(R, hash, schedule).value;
    QueueInvHolds(R, hash, schedule);
    ExactlyOnce(R, hash, schedule, j);
    var shard := s.shards[hash(j.task.symbol) % NUM_SHARDS];
    if j !in shard.QueueOf(j.producer) {
      assert j in shard.Taken() by {
        assert Count(shard.QueueOf(j.producer), j) == 0;
        assert shard.running == Some(j) || j in shard.done;
      }
    }
  }

  /** What waits in a queue or has been taken is a job that was issued; so jobs are where their symbols send them. */
  lemma QueuedByHash(R: Rules, hash: Hash, schedule: seq<Action>, k: nat, p: nat, j: Job)
    requires Execute(R, hash, schedule).Some? && k < NUM_SHARDS
    requires j in Execute(R, hash, schedule).value.shards[k].QueueOf(p)
          || j in Execute(R, hash, schedule).value.shards[k].Taken()
    ensures hash(j.task.symbol) % NUM_SHARDS == k
  {
    var s := Execute(R, hash, schedule).value;
    QueueInvHolds(R, hash, schedule);
    assert InOrder(s.shards[k], s.issued, k, p) && TakenHere(s.shards[k], s.issued, k);
    if j in s.shards[k].QueueOf(p) {
      assert j in Select(s.issued, k, p);
      SelectMembers(s.issued, k, p);
    }
  }

  /** Two jobs get into one shard exactly when the hashes of their symbols leave the same remainder. */
  lemma TogetherByHash(R: Rules, hash: Hash, schedule: seq<Action>, i: Job, j: Job)
    requires Execute(R, hash, schedule).Some?
    requires i in Execute(R, hash, schedule).value.issued && j in Execute(R, hash, schedule).value.issued
    ensures var s := Execute(R, hash, schedule).value;
      (exists k: nat :: StandsIn(s, k, i) && StandsIn(s, k, j)) <==>
      hash(i.task.symbol) % NUM_SHARDS == hash(j.task.symbol) % NUM_SHARDS
  {
    forall k: nat
      ensures var s := Execute(R, hash, schedule).value;
        && (StandsIn(s, k, i) <==> k == hash(i.task.symbol) % NUM_SHARDS)
        && (StandsIn(s, k, j) <==> k == hash(j.task.symbol) % NUM_SHARDS)
    {
      JobsStandByHash(R, hash, schedule, k, i);
      JobsStandByHash(R, hash, schedule, k, j);
    }
    if hash(i.task.symbol) % NUM_SHARDS == hash(j.task.symbol) % NUM_SHARDS {
      var k := hash(i.task.symbol) % NUM_SHARDS;
      assert StandsIn(Execute(R, hash, schedule).value, k, i) && StandsIn(Execute(R, hash, schedule).value, k, j);
    }
  }

  // ----- Books depend on the order of execution in their shard, and on nothing else -----

  function TasksOf(jobs: seq<Job>): seq<Task> {
    seq(|jobs|, i requires 0 <= i < |jobs| => jobs[i].task)
  }

  function FoldTasks(R: Rules, tasks: seq<Task>): (books: map<string, Book>)
    ensures BooksTradable(books)
  {
    if tasks == [] then map[] else RunTask(R, FoldTasks(R, tasks[..|tasks| - 1]), tasks[|tasks| - 1])
  }

  ghost predicate IsFold(R: Rules, shard: Shard) {
    shard.books == FoldTasks(R, TasksOf(shard.done))
  }

  lemma FinishKeepsFold(R: Rules, shard: Shard)
    requires shard.running.Some? && IsFold(R, shard) && BooksTradable(shard.books)
    ensures IsFold(R, WithFinished(R, shard))
  {
    var tasks := TasksOf(shard.done + [shard.running.value]);
    assert tasks[..|shard.done|] == TasksOf(shard.done);
  }

  lemma {:induction false} BooksAreFolds(R: Rules, hash: Hash, schedule: seq<Action>, k: nat)
    requires Execute(R, hash, schedule).Some? && k < NUM_SHARDS
    ensures IsFold(R, Execute(R, hash, schedule).value.shards[k])
  {
    if schedule != [] {
      var before, a := Execute(R, hash, schedule[..|schedule| - 1]).value, schedule[|schedule| - 1];
      BooksAreFolds(R, hash, schedule[..|schedule| - 1], k);
      if a == Finish(k) {
        FinishKeepsFold(R, before.shards[k]);
      } else {
        assert Do(R, hash, before, a).shards[k].done == before.shards[k].done;
      }
    }
  }

  /** The commands for one symbol, in order. */
  function CommandsFor(symbol: string, tasks: seq<Task>): seq<Command> {
    if tasks == [] then []
    else
      var last := tasks[|tasks| - 1];
      CommandsFor(symbol, tasks[..|tasks| - 1]) +
        if last.symbol != symbol then []
        else if last.NewOrderTask? then [New(last.order)] else [Cancel(last.orderId)]
  }

  lemma RunLast(R: Rules, b: Book, commands: seq<Command>, c: Command)
    requires Tradable(b)
    ensures Run(R, b, commands + [c]).book == Step(R, Run(R, b, commands).book, c).book
  {
    RunConcat(R, b, commands, [c]);
    assert [c][1..] == [];
  }

  /** Each symbol's book is the sequential run of that symbol's own commands. */
  lemma {:induction false} FoldIsRun(R: Rules, tasks: seq<Task>, symbol: string)
    ensures BookOf(FoldTasks(R, tasks), symbol) == Run(R, EmptyBook, CommandsFor(symbol, tasks)).book
  {
    if tasks != [] {
      var front, last := tasks[..|tasks| - 1], tasks[|tasks| - 1];
      FoldIsRun(R, front, symbol);
      var commands := CommandsFor(symbol, front);
      if last.symbol == symbol {
        RunLast(R, EmptyBook, commands, if last.NewOrderTask? then New(last.order) else Cancel(last.orderId));
      } else {
        assert commands + [] == commands;
      }
    }
  }

  /** In every reachable state each symbol's book in its shard is the sequential run, from the empty book, of that
      symbol's commands in the order in which the shard's worker took them. */
  lemma BookIsSequentialRun(R: Rules, hash: Hash, schedule: seq<Action>, symbol: string)
    requires Execute(R, hash, schedule).Some?
    ensures var shard := Execute(R, hash, schedule).value.shards[hash(symbol) % NUM_SHARDS];
      BookOf(shard.books, symbol) == Run(R, EmptyBook, CommandsFor(symbol, TasksOf(shard.done))).book
  {
    var k := ShardFor(hash, symbol);
    BooksAreFolds(R, hash, schedule, k);
    FoldIsRun(R, TasksOf(Execute(R, hash, schedule).value.shards[k].done), symbol);
  }

  /** Schedules that agree on the order of one symbol's commands within its shard agree on that symbol's book,
      whatever else they do; and if they agree on all of a shard's jobs they agree on all its books. */
  lemma ScheduleIndependence(R: Rules, hash: Hash, one: seq<Action>, two: seq<Action>, symbol: string)
    requires Execute(R, hash, one).Some? && Execute(R, hash, two).Some?
    ensures var k := hash(symbol) % NUM_SHARDS;
      var s, t := Execute(R, hash, one).value.shards[k], Execute(R, hash, two).value.shards[k];
      && (CommandsFor(symbol, TasksOf(s.done)) == CommandsFor(symbol, TasksOf(t.done)) ==>
            BookOf(s.books, symbol) == BookOf(t.books, symbol))
      && (TasksOf(s.done) == TasksOf(t.done) ==> s.books == t.books)
  {
    BookIsSequentialRun(R, hash, one, symbol);
    BookIsSequentialRun(R, hash, two, symbol);
    BooksAreFolds(R, hash, one, ShardFor(hash, symbol));
    BooksAreFolds(R, hash, two, ShardFor(hash, symbol));
  }

  /** A book exists only for a symbol for which a new order was run. */
  lemma {:induction false} FoldKnowsItsSymbols(R: Rules, tasks: seq<Task>)
    ensures forall symbol :: symbol in FoldTasks(R, tasks) ==>
              exists i :: 0 <= i < |tasks| && tasks[i].NewOrderTask? && tasks[i].symbol == symbol
  {
    if tasks != [] {
      var n := |tasks| - 1;
      FoldKnowsItsSymbols(R, tasks[..n]);
      forall symbol | symbol in FoldTasks(R, tasks)
        ensures exists i :: 0 <= i < |tasks| && tasks[i].NewOrderTask? && tasks[i].symbol == symbol
      {
        if symbol in FoldTasks(R, tasks[..n]) {
          var i :| 0 <= i < n && tasks[..n][i].NewOrderTask? && tasks[..n][i].symbol == symbol;
          assert tasks[i].NewOrderTask? && tasks[i].symbol == symbol;
        } else {
          assert tasks[n].NewOrderTask? && tasks[n].symbol == symbol;
        }
      }
    }
  }

  lemma FoldBookInv(R: Rules, tasks: seq<Task>, symbol: string)
    requires R.Ok()
    ensures BookInv(R, BookOf(FoldTasks(R, tasks), symbol))
  {
    FoldIsRun(R, tasks, symbol);
    RunFromEmptyInv(R, CommandsFor(symbol, tasks));
  }

  lemma BookIsAtHome(R: Rules, hash: Hash, schedule: seq<Action>, k: nat, symbol: string)
    requires Execute(R, hash, schedule).Some? && k < NUM_SHARDS
    requires symbol in Execute(R, hash, schedule).value.shards[k].books
    ensures k == hash(symbol) % NUM_SHARDS
  {
    var s := Execute(R, hash, schedule).value;
    BooksAreFolds(R, hash, schedule, k);
    QueueInvHolds(R, hash, schedule);
    var tasks := TasksOf(s.shards[k].done);
    FoldKnowsItsSymbols(R, tasks);
    var i :| 0 <= i < |tasks| && tasks[i].NewOrderTask? && tasks[i].symbol == symbol;
    assert s.shards[k].done[i] in s.shards[k].Taken();
    assert TakenHere(s.shards[k], s.issued, k);
  }

  /** Every book in every reachable state is in its symbol's shard and satisfies the book invariant; in particular it
      is not crossed. */
  lemma BooksNeverCrossed(R: Rules, hash: Hash, schedule: seq<Action>, k: nat, symbol: string)
    requires R.Ok() && Execute(R, hash, schedule).Some? && k < NUM_SHARDS
    requires symbol in Execute(R, hash, schedule).value.shards[k].books
    ensures k == hash(symbol) % NUM_SHARDS
    ensures BookInv(R, Execute(R, hash, schedule).value.shards[k].books[symbol])
  {
    BookIsAtHome(R, hash, schedule, k, symbol);
    BooksAreFolds(R, hash, schedule, k);
    FoldBookInv(R, TasksOf(Execute(R, hash, schedule).value.shards[k].done), symbol);
  }
}
