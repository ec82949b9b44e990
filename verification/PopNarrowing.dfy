/** `pop` as the code writes it: the 64-bit identifier of the popped order passes through an `int` before it is used
    to erase from the index (core/OrderBook.hpp:95-96). The rest of the project models the erasure that is meant;
    this module says exactly when the two are the same. */
module PopNarrowing {
  import opened Orders
  import opened OrderQueues

  /** The 64-bit key that a 64-bit identifier becomes on its way through a 32-bit signed integer. */
  function Narrow(id: uint64): uint64 {
    var low := id % TWO_32;
    if low < TWO_31 then low else low + (TWO_64 - TWO_32)
  }

  function CodedPop(q: Queue): Queue {
    if q.items == [] then q else Queue(q.items[1..], q.index - {Narrow(q.items[0].id)})
  }

  /** Narrowing loses nothing exactly for identifiers that are sign extensions of 32 bits. */
  predicate FitsInt(id: uint64) {
    id < TWO_31 || id >= TWO_64 - TWO_31
  }

  lemma NarrowKeepsExactly(id: uint64)
    ensures Narrow(id) == id <==> FitsInt(id)
    ensures FitsInt(Narrow(id)) && Narrow(id) % TWO_32 == id % TWO_32
  {
    var low := id % TWO_32;
    assert id == id / TWO_32 * TWO_32 + low;
    if id >= TWO_64 - TWO_31 {
      assert id / TWO_32 == TWO_32 - 1;
    } else if id < TWO_31 {
      assert id / TWO_32 == 0;
    }
  }

  /** In terms of the packed parts: only client ids 0 and 2^32 - 1 can be safe, each with half of the timestamps. */
  lemma FitsIntInParts(client: uint32, ts: uint32)
    ensures FitsInt(Pack(client, ts)) <==> (client == 0 && ts < TWO_31) || (client == TWO_32 - 1 && ts >= TWO_31)
  {
  }

  /** The coded pop leaves the index a bijection exactly when the popped identifier fits an `int`; otherwise the
      entry of the popped order stays behind and points at an erased element. */
  lemma CodedPopAgrees(q: Queue)
    requires Agrees(q) && q.items != []
    ensures Agrees(CodedPop(q)) <==> FitsInt(q.items[0].id)
    ensures FitsInt(q.items[0].id) ==> CodedPop(q) == Pop(q)
    ensures !FitsInt(q.items[0].id) ==> q.items[0].id in CodedPop(q).index && q.items[0] !in CodedPop(q).items
  {
    var first := q.items[0];
    NarrowKeepsExactly(first.id);
    PopAgrees(q);
    assert first in q.items && q.index[first.id] == first;
    forall k | 0 <= k < |q.items[1..]|
      ensures q.items[1..][k] != first
    {
      assert q.items[0].id != q.items[k + 1].id;
    }
    if !FitsInt(first.id) {
      assert CodedPop(q).index[first.id] == first;
    }
  }

  function CodedApply(less: Comparator, q: Queue, op: Op): Queue {
    if op.DoPop? then CodedPop(q) else Apply(less, q, op)
  }

  function CodedApplyAll(less: Comparator, q: Queue, ops: seq<Op>): Queue {
    if ops == [] then q else CodedApply(less, CodedApplyAll(less, q, ops[..|ops| - 1]), ops[|ops| - 1])
  }

  ghost predicate PopFits(q: Queue, op: Op) {
    op.DoPop? && q.items != [] ==> FitsInt(q.items[0].id)
  }

  /** Every order popped in the run has an identifier that fits an `int`. */
  ghost predicate PopsFitInt(less: Comparator, ops: seq<Op>) {
    ops != [] ==>
      var before := ops[..|ops| - 1];
      PopsFitInt(less, before) && PopFits(ApplyAll(less, EmptyQueue, before), ops[|ops| - 1])
  }

  /** After every prefix of the run the coded queue's index is a bijection onto its elements. */
  ghost predicate CodedAgreesThroughout(less: Comparator, ops: seq<Op>) {
    && Agrees(CodedApplyAll(less, EmptyQueue, ops))
    && (ops != [] ==> CodedAgreesThroughout(less, ops[..|ops| - 1]))
  }

  lemma CodedStepAgrees(less: Comparator, q: Queue, op: Op)
    requires Agrees(q) && FreshFor(q, op)
    ensures Agrees(CodedApply(less, q, op)) <==> PopFits(q, op)
    ensures PopFits(q, op) ==> CodedApply(less, q, op) == Apply(less, q, op)
  {
    StepAgrees(less, q, op);
    if op.DoPop? && q.items != [] {
      CodedPopAgrees(q);
    }
  }

  /** Whole runs with fresh identifiers: the coded queue keeps its index throughout exactly when every order that is
      popped has an identifier that fits an `int`, and then it is the intended queue at every point. */
  lemma {:induction false} CodedRunAgrees(less: Comparator, ops: seq<Op>)
    requires StrictWeakOrder(less) && FreshRun(less, ops)
    ensures CodedAgreesThroughout(less, ops) <==> PopsFitInt(less, ops)
    ensures PopsFitInt(less, ops) ==> CodedApplyAll(less, EmptyQueue, ops) == ApplyAll(less, EmptyQueue, ops)
  {
    if ops != [] {
      var before, op := ops[..|ops| - 1], ops[|ops| - 1];
      CodedRunAgrees(less, before);
      RunAgrees(less, before);
      CodedStepAgrees(less, ApplyAll(less, EmptyQueue, before), op);
    }
  }

  /** A concrete failure: client id 1 with timestamp 5, pushed and popped. `find` still meets an index entry, whose
      element is gone; the intended queue finds nothing. */
  lemma CodedPopLeavesStaleEntry(less: Comparator)
    ensures var o := Order(Pack(1, 5), 1000000, 10, Buy, "c1");
      var ops := [DoPush(o), DoPop];
      && Find(CodedApplyAll(less, EmptyQueue, ops), o.id) == Some(o)
      && CodedApplyAll(less, EmptyQueue, ops).items == []
      && Find(ApplyAll(less, EmptyQueue, ops), o.id) == None
  {
    var o := Order(Pack(1, 5), 1000000, 10, Buy, "c1");
    var ops := [DoPush(o), DoPop];
    assert ops[..1] == [DoPush(o)] && [DoPush(o)][..0] == [];
    assert Narrow(o.id) == 5;
    var pushed := Queue([o], map[o.id := o]);
    assert ApplyAll(less, EmptyQueue, [DoPush(o)]) == pushed;
    assert CodedApplyAll(less, EmptyQueue, [DoPush(o)]) == pushed;
    assert CodedPop(pushed) == Queue([], map[o.id := o]);
  }

  /** The other failure: the narrowed key belongs to a different resting order, which can no longer be found. */
  lemma CodedPopForgetsAnother()
    ensures var gone := Order(Pack(1, 5), 1010000, 10, Buy, "c1");
      var kept := Order(Pack(0, 5), 1000000, 10, Buy, "c2");
      var q := Queue([gone, kept], map[gone.id := gone, kept.id := kept]);
      && Agrees(q) && Sorted(AsWritten(Buy), q.items)
      && kept in CodedPop(q).items && Find(CodedPop(q), kept.id) == None
      && Find(Pop(q), kept.id) == Some(kept)
  {
    assert Narrow(Pack(1, 5)) == 5;
  }
}
