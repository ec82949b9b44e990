/** The price-sorted queue with its identifier index (PriorityQueueAdapter in core/OrderBook.hpp):
    first as values, then as the class that updates it. */
module OrderQueues {
  import opened Orders

  /** `items` is the multiset in iteration order. `index` maps an identifier to the element its iterator points at. */
  datatype Queue = Queue(items: seq<Order>, index: map<uint64, Order>)

  const EmptyQueue := Queue([], map[])

  ghost predicate Sorted(less: Comparator, s: seq<Order>) {
    forall i, j :: 0 <= i < j < |s| ==> !less(s[j], s[i])
  }

  ghost predicate AllValid(s: seq<Order>) {
    forall o :: o in s ==> o.IsValid()
  }

  /** Every index entry points at an element of the multiset that carries the entry's identifier. */
  ghost predicate IndexLive(q: Queue) {
    forall id :: id in q.index ==> q.index[id] in q.items && q.index[id].id == id
  }

  ghost predicate WellFormed(less: Comparator, q: Queue) {
    Sorted(less, q.items) && AllValid(q.items) && IndexLive(q)
  }

  /** A sorted container inserts behind all elements equivalent to the new one. */
  function Insert(less: Comparator, s: seq<Order>, o: Order): (r: seq<Order>)
    ensures |r| == |s| + 1
  {
    if s == [] then [o]
    else if less(o, s[0]) then [o] + s
    else [s[0]] + Insert(less, s[1..], o)
  }

  /** Erases the element an index entry points at: of equal elements that is the one inserted last. */
  function EraseLast(s: seq<Order>, o: Order): (r: seq<Order>)
    ensures |r| <= |s|
  {
    if s == [] then []
    else if s[|s| - 1] == o then s[..|s| - 1]
    else EraseLast(s[..|s| - 1], o) + [s[|s| - 1]]
  }

  function Push(less: Comparator, q: Queue, o: Order): Queue {
    if o.IsValid() then Queue(Insert(less, q.items, o), q.index[o.id := o]) else q
  }

  function Pop(q: Queue): Queue {
    if q.items == [] then q else Queue(q.items[1..], q.index - {q.items[0].id})
  }

  function Remove(q: Queue, id: uint64): Queue {
    if id in q.index then Queue(EraseLast(q.items, q.index[id]), q.index - {id}) else q
  }

  function Find(q: Queue, id: uint64): Option<Order> {
    if id in q.index then Some(q.index[id]) else None
  }

  function Top(q: Queue): Option<Order> {
    if q.items == [] then None else Some(q.items[0])
  }

  // ----- Where an insertion and an erasure take place -----

  /** The position at which a new element goes in: the first one it goes before. */
  function Position(less: Comparator, s: seq<Order>, o: Order): (p: nat)
    ensures p <= |s|
    ensures forall i :: 0 <= i < p ==> !less(o, s[i])
    ensures p < |s| ==> less(o, s[p])
  {
    if s == [] || less(o, s[0]) then 0
    else
      var p := Position(less, s[1..], o);
      assert forall i :: 0 < i < p + 1 ==> s[i] == s[1..][i - 1];
      p + 1
  }

  lemma {:induction false} InsertSplit(less: Comparator, s: seq<Order>, o: Order) returns (p: nat)
    ensures p == Position(less, s, o)
    ensures Insert(less, s, o) == s[..p] + [o] + s[p..]
  {
    p := 0;
    if s != [] && !less(o, s[0]) {
      var rest := InsertSplit(less, s[1..], o);
      p := rest + 1;
      assert s[..p] == [s[0]] + s[1..][..rest];
    }
  }

  lemma {:induction false} EraseSplit(s: seq<Order>, o: Order) returns (p: nat)
    requires o in s
    ensures p < |s| && s[p] == o && EraseLast(s, o) == s[..p] + s[p + 1..]
    ensures forall i :: p < i < |s| ==> s[i] != o
  {
    var front, last := s[..|s| - 1], s[|s| - 1];
    p := |s| - 1;
    if last != o {
      p := EraseSplit(front, o);
      assert front[..p] == s[..p] && front[p + 1..] + [last] == s[p + 1..];
      assert forall i :: p < i < |front| ==> front[i] == s[i];
    }
  }

  lemma InsertMembers(less: Comparator, s: seq<Order>, o: Order)
    ensures forall x :: x in Insert(less, s, o) <==> x in s || x == o
  {
    var p := InsertSplit(less, s, o);
    assert s == s[..p] + s[p..];
  }

  lemma EraseMembers(s: seq<Order>, o: Order)
    ensures forall x :: x in EraseLast(s, o) ==> x in s
    ensures forall x :: x in s && x != o ==> x in EraseLast(s, o)
  {
    if o in s {
      var p := EraseSplit(s, o);
      assert s == s[..p] + [o] + s[p + 1..];
    } else {
      EraseAbsent(s, o);
    }
  }

  // ----- Sortedness -----

  lemma InsertSorted(less: Comparator, s: seq<Order>, o: Order)
    requires StrictWeakOrder(less) && Sorted(less, s)
    ensures Sorted(less, Insert(less, s, o))
  {
    var p := InsertSplit(less, s, o);
    forall j | p <= j < |s|
      ensures !less(s[j], o)
    {
      // From o before s[p] and s[p] not behind s[j].
      assert less(o, s[p]);
    }
  }

  lemma EraseSorted(less: Comparator, s: seq<Order>, o: Order)
    requires Sorted(less, s)
    ensures Sorted(less, EraseLast(s, o))
  {
    if o in s {
      var p := EraseSplit(s, o);
    } else {
      EraseAbsent(s, o);
    }
  }

  lemma {:induction false} EraseAbsent(s: seq<Order>, o: Order)
    requires o !in s
    ensures EraseLast(s, o) == s
  {
    if s != [] {
      EraseAbsent(s[..|s| - 1], o);
    }
  }

  // ----- Each operation keeps a well-formed queue well-formed -----

  lemma PushWellFormed(less: Comparator, q: Queue, o: Order)
    requires StrictWeakOrder(less) && WellFormed(less, q)
    ensures WellFormed(less, Push(less, q, o))
  {
    if o.IsValid() {
      InsertSorted(less, q.items, o);
      InsertMembers(less, q.items, o);
    }
  }

  lemma PopKeepsSortedAndValid(less: Comparator, q: Queue)
    requires Sorted(less, q.items) && AllValid(q.items)
    ensures Sorted(less, Pop(q).items) && AllValid(Pop(q).items)
  {
    if q.items != [] {
      forall o | o in q.items[1..]
        ensures o.IsValid()
      {
        assert o in q.items;
      }
    }
  }

  lemma PopWellFormed(less: Comparator, q: Queue)
    requires WellFormed(less, q)
    ensures WellFormed(less, Pop(q))
  {
    PopKeepsSortedAndValid(less, q);
    if q.items != [] {
      forall id | id in Pop(q).index
        ensures q.index[id] in q.items[1..]
      {
        assert q.items == [q.items[0]] + q.items[1..];
      }
    }
  }

  lemma RemoveWellFormed(less: Comparator, q: Queue, id: uint64)
    requires WellFormed(less, q)
    ensures WellFormed(less, Remove(q, id))
  {
    if id in q.index {
      EraseSorted(less, q.items, q.index[id]);
      EraseMembers(q.items, q.index[id]);
    }
  }

  /** The front element is minimal: nothing in the queue goes before it. */
  lemma TopIsMinimal(less: Comparator, q: Queue)
    requires StrictWeakOrder(less) && Sorted(less, q.items)
    ensures Top(q) == None <==> q.items == []
    ensures Top(q).Some? ==> Top(q).value in q.items && forall o :: o in q.items ==> !less(o, Top(q).value)
  {
    if q.items != [] {
      forall o | o in q.items
        ensures !less(o, q.items[0])
      {
        var k :| 0 <= k < |q.items| && q.items[k] == o;
      }
    }
  }

  // ----- Index agreement over whole runs -----

  datatype Op = DoPush(order: Order) | DoPop | DoRemove(id: uint64)

  function Apply(less: Comparator, q: Queue, op: Op): Queue {
    match op
    case DoPush(o) => Push(less, q, o)
    case DoPop => Pop(q)
    case DoRemove(id) => Remove(q, id)
  }

  function ApplyAll(less: Comparator, q: Queue, ops: seq<Op>): Queue {
    if ops == [] then q else Apply(less, ApplyAll(less, q, ops[..|ops| - 1]), ops[|ops| - 1])
  }

  ghost predicate DistinctIds(s: seq<Order>) {
    forall i, j :: 0 <= i < j < |s| ==> s[i].id != s[j].id
  }

  /** The index is a bijection onto the elements: both say the same plain map from identifier to order. */
  ghost predicate Agrees(q: Queue) {
    && DistinctIds(q.items)
    && IndexLive(q)
    && (forall o :: o in q.items ==> o.id in q.index && q.index[o.id] == o)
  }

  /** The same operation on a plain map; a pop takes out whichever order `top` was at the front. */
  function PlainApply(m: map<uint64, Order>, top: Option<Order>, op: Op): map<uint64, Order> {
    match op
    case DoPush(o) => if o.IsValid() then m[o.id := o] else m
    case DoPop => if top.Some? then m - {top.value.id} else m
    case DoRemove(id) => m - {id}
  }

  ghost predicate FreshFor(q: Queue, op: Op) {
    op.DoPush? && op.order.IsValid() ==> op.order.id !in q.index
  }

  /** Identifiers are fresh when no valid order is ever pushed while an order with its identifier is in the queue. */
  ghost predicate FreshRun(less: Comparator, ops: seq<Op>) {
    ops != [] ==>
      var before := ops[..|ops| - 1];
      FreshRun(less, before) && FreshFor(ApplyAll(less, EmptyQueue, before), ops[|ops| - 1])
  }

  /** Whether identifiers are distinct does not depend on where an order stands. */
  lemma DistinctAround(s: seq<Order>, p: nat, o: Order)
    requires p <= |s|
    ensures DistinctIds(s[..p] + [o] + s[p..]) <==> DistinctIds(s) && NoId(s, o.id)
  {
    if DistinctIds(s[..p] + [o] + s[p..]) {
      DistinctWithout(s, p, o);
    }
    if DistinctIds(s) && NoId(s, o.id) {
      DistinctWith(s, p, o);
    }
  }

  lemma DistinctWithout(s: seq<Order>, p: nat, o: Order)
    requires p <= |s| && DistinctIds(s[..p] + [o] + s[p..])
    ensures DistinctIds(s) && NoId(s, o.id)
  {
    var r := s[..p] + [o] + s[p..];
    forall i | 0 <= i < |s|
      ensures s[i] == r[Shift(i, p)]
    {
    }
    assert r[p] == o;
    forall i, j | 0 <= i < j < |s|
      ensures s[i].id != s[j].id
    {
      assert r[Shift(i, p)].id != r[Shift(j, p)].id;
    }
    forall i | 0 <= i < |s|
      ensures s[i].id != o.id
    {
      assert r[Shift(i, p)].id != r[p].id;
    }
  }

  lemma DistinctWith(s: seq<Order>, p: nat, o: Order)
    requires p <= |s| && DistinctIds(s) && NoId(s, o.id)
    ensures DistinctIds(s[..p] + [o] + s[p..])
  {
    var r := s[..p] + [o] + s[p..];
    forall i | 0 <= i < |r|
      ensures r[i] == if i < p then s[i] else if i == p then o else s[i - 1]
    {
    }
  }

  function Shift(i: nat, p: nat): nat {
    if i < p then i else i + 1
  }

  ghost predicate NoId(s: seq<Order>, id: uint64) {
    forall i :: 0 <= i < |s| ==> s[i].id != id
  }

  lemma InsertDistinct(less: Comparator, s: seq<Order>, o: Order)
    ensures DistinctIds(Insert(less, s, o)) <==> DistinctIds(s) && NoId(s, o.id)
  {
    var p := InsertSplit(less, s, o);
    DistinctAround(s, p, o);
  }

  lemma EraseDistinct(s: seq<Order>, o: Order)
    requires DistinctIds(s) && o in s
    ensures DistinctIds(EraseLast(s, o)) && NoId(EraseLast(s, o), o.id)
  {
    var p := EraseSplit(s, o);
    var r := EraseLast(s, o);
    assert r[..p] + [o] + r[p..] == s;
    DistinctAround(r, p, o);
  }

  lemma PushAgrees(less: Comparator, q: Queue, o: Order)
    requires Agrees(q) && o.IsValid()
    ensures Agrees(Push(less, q, o)) <==> o.id !in q.index
  {
    InsertMembers(less, q.items, o);
    InsertDistinct(less, q.items, o);
    if o.id in q.index {
      var k :| 0 <= k < |q.items| && q.items[k] == q.index[o.id];
      assert !NoId(q.items, o.id);
    } else {
      forall i | 0 <= i < |q.items|
        ensures q.items[i].id != o.id
      {
        assert q.items[i] in q.items;
      }
    }
  }

  lemma DistinctTail(s: seq<Order>)
    requires DistinctIds(s) && s != []
    ensures DistinctIds(s[1..])
    ensures forall o :: o in s[1..] ==> o in s && o.id != s[0].id
  {
    var rest := s[1..];
    forall i | 0 <= i < |rest|
      ensures rest[i] == s[i + 1] && rest[i].id != s[0].id
    {
    }
  }

  lemma PopAgrees(q: Queue)
    requires Agrees(q)
    ensures Agrees(Pop(q))
  {
    if q.items != [] {
      DistinctTail(q.items);
      assert q.items == [q.items[0]] + q.items[1..];
    }
  }

  lemma RemoveAgrees(q: Queue, id: uint64)
    requires Agrees(q)
    ensures Agrees(Remove(q, id))
  {
    if id in q.index {
      EraseDistinct(q.items, q.index[id]);
      EraseMembers(q.items, q.index[id]);
    }
  }

  /** One step: agreement survives exactly when the step does not push an identifier already resting; and then
      the index moves as the plain map does. */
  lemma StepAgrees(less: Comparator, q: Queue, op: Op)
    requires Agrees(q)
    ensures Agrees(Apply(less, q, op)) <==> FreshFor(q, op)
    ensures FreshFor(q, op) ==> Apply(less, q, op).index == PlainApply(q.index, Top(q), op)
  {
    match op {
      case DoPush(o) =>
        if o.IsValid() {
          PushAgrees(less, q, o);
        }
      case DoPop => PopAgrees(q);
      case DoRemove(id) => RemoveAgrees(q, id);
    }
  }

  function PlainRun(less: Comparator, ops: seq<Op>): map<uint64, Order> {
    if ops == [] then map[]
    else var before := ops[..|ops| - 1];
      PlainApply(PlainRun(less, before), Top(ApplyAll(less, EmptyQueue, before)), ops[|ops| - 1])
  }

  /** Whole runs: from the empty queue, with fresh identifiers, the queue stays sorted, the index stays a bijection
      onto its elements, and `find` answers as the plain map does. */
  lemma {:induction false} RunAgrees(less: Comparator, ops: seq<Op>)
    requires StrictWeakOrder(less) && FreshRun(less, ops)
    ensures var q := ApplyAll(less, EmptyQueue, ops);
      && WellFormed(less, q) && Agrees(q)
      && q.index == PlainRun(less, ops)
      && (forall id :: Find(q, id) == if id in PlainRun(less, ops) then Some(PlainRun(less, ops)[id]) else None)
  {
    if ops != [] {
      var before, op := ops[..|ops| - 1], ops[|ops| - 1];
      RunAgrees(less, before);
      var q := ApplyAll(less, EmptyQueue, before);
      StepAgrees(less, q, op);
      match op {
        case DoPush(o) => PushWellFormed(less, q, o);
        case DoPop => PopWellFormed(less, q);
        case DoRemove(id) => RemoveWellFormed(less, q, id);
      }
    }
  }

  // ----- Time priority -----

  /** With the `<` variant, of two resting orders at one price the older is never behind the younger. */
  lemma FifoKeepsTimePriority(side: Side, s: seq<Order>, i: nat, j: nat)
    requires Sorted(Fifo(side), s) && i < j < |s| && s[i].price == s[j].price
    ensures s[i].Timestamp() <= s[j].Timestamp()
  {
    assert !Fifo(side)(s[j], s[i]);
  }

  /** The comparators as written keep time priority between two orders at one price exactly when these carry the
      same timestamp: otherwise the newer one is in front. */
  lemma AsWrittenReversesTimePriority(side: Side, s: seq<Order>, i: nat, j: nat)
    requires Sorted(AsWritten(side), s) && i < j < |s| && s[i].price == s[j].price
    ensures s[i].Timestamp() <= s[j].Timestamp() <==> s[i].Timestamp() == s[j].Timestamp()
  {
    assert !AsWritten(side)(s[j], s[i]);
  }

  // ----- The class -----

  class PriorityQueueAdapter {
    const less: Comparator
    var priceSorted: seq<Order>
    var idToIter: map<uint64, Order>

    function Model(): Queue
      reads this
    {
      Queue(priceSorted, idToIter)
    }

    ghost predicate Valid()
      reads this
    {
      StrictWeakOrder(less) && WellFormed(less, Model())
    }

    constructor (less: Comparator)
      requires StrictWeakOrder(less)
      ensures Valid() && Model() == EmptyQueue && this.less == less
    {
      this.less := less;
      priceSorted, idToIter := [], map[];
    }

    predicate Empty()
      reads this
    {
      priceSorted == []
    }

    function TopOrder(): (top: Option<Order>)
      reads this
      ensures top == Top(Model())
    {
      if Empty() then None else Some(priceSorted[0])
    }

    method PushOrder(order: Order) returns (ok: bool)
      requires Valid()
      modifies this
      ensures Valid() && Model() == Push(less, old(Model()), order)
      ensures ok == order.IsValid()
    {
      PushWellFormed(less, Model(), order);
      if !order.IsValid() {
        return false;
      }
      priceSorted := Insert(less, priceSorted, order);
      idToIter := idToIter[order.id := order];
      return true;
    }

    function FindOrder(orderId: uint64): (found: Option<Order>)
      reads this
      ensures found == Find(Model(), orderId)
    {
      if orderId in idToIter then Some(idToIter[orderId]) else None
    }

    method PopOrder() returns (ok: bool)
      requires Valid()
      modifies this
      ensures Valid() && Model() == Pop(old(Model()))
      ensures ok == (old(Model()).items != [])
    {
      PopWellFormed(less, Model());
      if Empty() {
        return false;
      }
      var id := priceSorted[0].id;
      idToIter := idToIter - {id};
      priceSorted := priceSorted[1..];
      return true;
    }

    method RemoveOrder(orderId: uint64) returns (ok: bool)
      requires Valid()
      modifies this
      ensures Valid() && Model() == Remove(old(Model()), orderId)
      ensures ok == (orderId in old(Model()).index)
    {
      RemoveWellFormed(less, Model(), orderId);
      if orderId !in idToIter {
        return false;
      }
      priceSorted := EraseLast(priceSorted, idToIter[orderId]);
      idToIter := idToIter - {orderId};
      return true;
    }

    method IsValid() returns (ok: bool)
      ensures ok <==> AllValid(Model().items)
    {
      for i := 0 to |priceSorted|
        invariant AllValid(priceSorted[..i])
      {
        if !priceSorted[i].IsValid() {
          return false;
        }
      }
      assert priceSorted == priceSorted[..|priceSorted|];
      return true;
    }
  }
}
