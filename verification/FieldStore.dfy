/** Field maps as they lie in the arena: bounded lists of fields, and linked chains of group instances
    (core/FieldMap.cpp:9-84, core/FieldList.hpp:25-54, core/Field.hpp:13-53). A pointer to a FieldMap is the number of
    its block in the arena. */
module FieldStore {
  import opened Orders
  import opened Arena
  import opened FixTags
  import opened Sequences

  const MAX_FIELDS := 64

  datatype FieldRec = FieldRec(tag: Tag, offset: nat, length: nat, groups: Option<nat>, tail: Option<nat>)

  datatype MapRec = MapRec(next: Option<nat>, list: seq<FieldRec>)

  /** Where a group instance belongs: in which map, on the field with which tag, at which position. */
  datatype Place = Place(owner: nat, tag: Tag, pos: nat)

  /** The maps, and what their pointers stand for: the instances on each field in order, and the place of each. */
  datatype Shape = Shape(maps: seq<MapRec>, chains: map<(nat, Tag), seq<nat>>, places: seq<Place>) {
    function Chain(i: nat, tag: Tag): seq<nat> {
      if (i, tag) in chains then chains[(i, tag)] else []
    }
  }

  function FindRec(list: seq<FieldRec>, tag: Tag): (r: Option<nat>)
    ensures r.Some? ==> r.value < |list| && list[r.value].tag == tag
    ensures forall k :: 0 <= k < (if r.Some? then r.value else |list|) ==> list[k].tag != tag
  {
    if list == [] then None
    else if list[0].tag == tag then Some(0)
    else
      var r := FindRec(list[1..], tag);
      if r.None? then None else Some(r.value + 1)
  }

  function First(c: seq<nat>): Option<nat> {
    if c == [] then None else Some(c[0])
  }

  function Last(c: seq<nat>): Option<nat> {
    if c == [] then None else Some(c[|c| - 1])
  }

  // ----- The invariant -----

  ghost predicate TagsDistinct(list: seq<FieldRec>) {
    forall j, k :: 0 <= j < k < |list| ==> list[j].tag != list[k].tag
  }

  /** The pointers of a field lead to the first and the last instance of its chain. */
  ghost predicate LinksEnds(s: Shape, i: nat, f: FieldRec) {
    f.groups == First(s.Chain(i, f.tag)) && f.tail == Last(s.Chain(i, f.tag))
  }

  ghost predicate MapOk(s: Shape, i: nat)
    requires i < |s.maps|
  {
    && TagsDistinct(s.maps[i].list) && |s.maps[i].list| <= MAX_FIELDS
    && forall k :: 0 <= k < |s.maps[i].list| ==> LinksEnds(s, i, s.maps[i].list[k])
  }

  /** An instance on a chain lies behind its owner in the arena, knows its place, and points to the next instance. */
  ghost predicate LinkOk(s: Shape, i: nat, tag: Tag, j: nat)
    requires j < |s.Chain(i, tag)|
  {
    var c := s.Chain(i, tag);
    && i < c[j] < |s.maps| == |s.places| && s.places[c[j]] == Place(i, tag, j)
    && s.maps[c[j]].next == (if j + 1 < |c| then Some(c[j + 1]) else None)
    && (j + 1 < |c| ==> c[j] < c[j + 1])
  }

  ghost predicate ChainOk(s: Shape, i: nat, tag: Tag) {
    && (s.Chain(i, tag) != [] ==> i < |s.maps| && FindRec(s.maps[i].list, tag).Some?)
    && forall j :: 0 <= j < |s.Chain(i, tag)| ==> LinkOk(s, i, tag, j)
  }

  /** Every map but the root hangs on a chain, where its place says. */
  ghost predicate PlaceOk(s: Shape, p: nat)
    requires p < |s.places|
  {
    var c := s.Chain(s.places[p].owner, s.places[p].tag);
    s.places[p].pos < |c| && c[s.places[p].pos] == p
  }

  ghost predicate Ok(s: Shape) {
    && 1 <= |s.maps| == |s.places|
    && (forall i :: 0 <= i < |s.maps| ==> MapOk(s, i))
    && (forall i: nat, tag: Tag :: ChainOk(s, i, tag))
    && (forall p :: 1 <= p < |s.maps| ==> PlaceOk(s, p))
  }

  const EMPTY_REC := MapRec(None, [])

  const INITIAL := Shape([EMPTY_REC], map[], [Place(0, 0, 0)])

  lemma InitialOk()
    ensures Ok(INITIAL)
  {
  }

  /** Chains of different fields have no instance in common; in particular no chain runs into another or into itself. */
  lemma ChainsAreDisjoint(s: Shape, i: nat, tag: Tag, j: nat, i': nat, tag': Tag, j': nat)
    requires Ok(s) && j < |s.Chain(i, tag)| && j' < |s.Chain(i', tag')|
    requires s.Chain(i, tag)[j] == s.Chain(i', tag')[j']
    ensures i == i' && tag == tag' && j == j'
  {
    assert ChainOk(s, i, tag) && LinkOk(s, i, tag, j);
    assert ChainOk(s, i', tag') && LinkOk(s, i', tag', j');
  }

  // ----- Setting a field -----

  /** An overwritten field keeps its chain. */
  function PutRec(list: seq<FieldRec>, tag: Tag, offset: nat, length: nat): seq<FieldRec> {
    var k := FindRec(list, tag);
    if k.None? then list + [FieldRec(tag, offset, length, None, None)]
    else list[k.value := list[k.value].(offset := offset, length := length)]
  }

  function SetShape(s: Shape, i: nat, tag: Tag, offset: nat, length: nat): Shape
    requires i < |s.maps|
  {
    s.(maps := s.maps[i := s.maps[i].(list := PutRec(s.maps[i].list, tag, offset, length))])
  }

  /** There is room for a field with this tag. */
  predicate HasRoom(s: Shape, i: nat, tag: Tag)
    requires i < |s.maps|
  {
    FindRec(s.maps[i].list, tag).Some? || |s.maps[i].list| < MAX_FIELDS
  }

  lemma FindStays(list: seq<FieldRec>, list': seq<FieldRec>, tag: Tag)
    requires |list| <= |list'| && forall k :: 0 <= k < |list| ==> list[k].tag == list'[k].tag
    requires FindRec(list, tag).Some?
    ensures FindRec(list', tag) == FindRec(list, tag)
  {
    var k, k' := FindRec(list, tag), FindRec(list', tag);
    assert list'[k.value].tag == tag;
    forall j | 0 <= j < k.value
      ensures list'[j].tag != tag
    {
      assert list[j].tag != tag;
    }
  }

  /** A stored field is found under its tag with the new value and with the pointers it had; every other field stays as
      it was. */
  lemma LastValueCounts(list: seq<FieldRec>, tag: Tag, offset: nat, length: nat, other: Tag)
    ensures var was, list' := FindRec(list, tag), PutRec(list, tag, offset, length);
      var now := FindRec(list', tag);
      && now.Some? && list'[now.value].offset == offset && list'[now.value].length == length
      && (was.Some? ==> |list'| == |list| && list'[now.value].groups == list[was.value].groups
                        && list'[now.value].tail == list[was.value].tail)
      && (was.None? ==> |list'| == |list| + 1 && list'[now.value].groups == list'[now.value].tail == None)
    ensures other != tag ==>
      var was, list' := FindRec(list, other), PutRec(list, tag, offset, length);
      FindRec(list', other) == was && (was.Some? ==> list'[was.value] == list[was.value])
  {
    var list' := PutRec(list, tag, offset, length);
    if FindRec(list, tag).Some? {
      FindStays(list, list', tag);
    } else {
      FindEnd(list, list'[|list|]);
    }
    if other != tag && FindRec(list, other).Some? {
      FindStays(list, list', other);
    }
  }

  /** A field behind all others is found if none of them has its tag. */
  lemma {:induction false} FindEnd(list: seq<FieldRec>, f: FieldRec)
    requires FindRec(list, f.tag).None?
    ensures FindRec(list + [f], f.tag) == Some(|list|)
  {
    var r := FindRec(list + [f], f.tag);
    assert (list + [f])[|list|] == f;
    forall j | 0 <= j < |list|
      ensures (list + [f])[j].tag != f.tag
    {
      assert list[j].tag != f.tag;
    }
  }

  lemma SetKeepsOk(s: Shape, i: nat, tag: Tag, offset: nat, length: nat)
    requires Ok(s) && i < |s.maps| && HasRoom(s, i, tag)
    ensures Ok(SetShape(s, i, tag, offset, length))
  {
    var s' := SetShape(s, i, tag, offset, length);
    var list, list' := s.maps[i].list, s'.maps[i].list;
    assert MapOk(s, i) && ChainOk(s, i, tag);
    forall i' | 0 <= i' < |s.maps|
      ensures MapOk(s', i')
    {
      assert MapOk(s, i');
    }
    forall i': nat, tag': Tag
      ensures ChainOk(s', i', tag')
    {
      assert ChainOk(s, i', tag');
      if i' == i && FindRec(list, tag').Some? {
        FindStays(list, list', tag');
      }
      forall j | 0 <= j < |s.Chain(i', tag')|
        ensures LinkOk(s', i', tag', j)
      {
        assert LinkOk(s, i', tag', j);
      }
    }
    forall p | 1 <= p < |s.maps|
      ensures PlaceOk(s', p)
    {
      assert PlaceOk(s, p);
    }
  }

  // ----- Adding a group instance -----

  function AddRec(list: seq<FieldRec>, tag: Tag, fm: nat): seq<FieldRec> {
    var k := FindRec(list, tag);
    if k.None? then list + [FieldRec(tag, 0, 0, Some(fm), Some(fm))]
    else if list[k.value].groups.None? then list[k.value := list[k.value].(groups := Some(fm), tail := Some(fm))]
    else list[k.value := list[k.value].(tail := Some(fm))]
  }

  /** The maps with a new one at the end, linked from the one that was the last on this chain. */
  function Linked(maps: seq<MapRec>, last: Option<nat>): seq<MapRec> {
    if last.Some? && last.value < |maps| then
      maps[last.value := maps[last.value].(next := Some(|maps|))] + [EMPTY_REC]
    else
      maps + [EMPTY_REC]
  }

  function AddShape(s: Shape, i: nat, tag: Tag): Shape
    requires i < |s.maps|
  {
    var c, fm := s.Chain(i, tag), |s.maps|;
    var linked := Linked(s.maps, Last(c));
    Shape(linked[i := linked[i].(list := AddRec(s.maps[i].list, tag, fm))],
          s.chains[(i, tag) := c + [fm]], s.places + [Place(i, tag, |c|)])
  }

  lemma AddedLists(s: Shape, i: nat, tag: Tag, i': nat)
    requires Ok(s) && i < |s.maps| && i' < |s.maps|
    ensures AddShape(s, i, tag).maps[i'].list
         == if i' == i then AddRec(s.maps[i].list, tag, |s.maps|) else s.maps[i'].list
  {
  }

  lemma AddKeepsMaps(s: Shape, i: nat, tag: Tag, i': nat)
    requires Ok(s) && i < |s.maps| && HasRoom(s, i, tag) && i' <= |s.maps|
    ensures MapOk(AddShape(s, i, tag), i')
  {
    var s' := AddShape(s, i, tag);
    if i' < |s.maps| {
      assert MapOk(s, i') && MapOk(s, i) && ChainOk(s, i, tag);
      AddedLists(s, i, tag, i');
    } else {
      assert s'.maps[i'] == EMPTY_REC;
    }
  }

  lemma AddKeepsField(s: Shape, i: nat, tag: Tag, i': nat, tag': Tag)
    requires Ok(s) && i < |s.maps|
    ensures var s' := AddShape(s, i, tag);
      s'.Chain(i', tag') != [] ==> i' < |s'.maps| && FindRec(s'.maps[i'].list, tag').Some?
  {
    var s', list := AddShape(s, i, tag), s.maps[i].list;
    assert ChainOk(s, i', tag');
    if i' < |s.maps| {
      AddedLists(s, i, tag, i');
    }
    if i' == i {
      if FindRec(list, tag').Some? {
        FindStays(list, s'.maps[i].list, tag');
      } else if tag' == tag {
        assert s'.maps[i].list[|list|].tag == tag;
      }
    }
  }

  lemma AddKeepsLink(s: Shape, i: nat, tag: Tag, i': nat, tag': Tag, j: nat)
    requires Ok(s) && i < |s.maps| && j < |AddShape(s, i, tag).Chain(i', tag')|
    ensures LinkOk(AddShape(s, i, tag), i', tag', j)
  {
    var c := s.Chain(i, tag);
    assert ChainOk(s, i', tag') && ChainOk(s, i, tag);
    if c != [] {
      assert LinkOk(s, i, tag, |c| - 1);
    }
    if j < |s.Chain(i', tag')| {
      assert LinkOk(s, i', tag', j);
      if c != [] && s.Chain(i', tag')[j] == c[|c| - 1] {
        ChainsAreDisjoint(s, i', tag', j, i, tag, |c| - 1);
      }
    }
  }

  lemma AddKeepsPlaces(s: Shape, i: nat, tag: Tag, p: nat)
    requires Ok(s) && i < |s.maps| && 1 <= p <= |s.maps|
    ensures PlaceOk(AddShape(s, i, tag), p)
  {
    if p < |s.maps| {
      assert PlaceOk(s, p);
    }
  }

  lemma AddKeepsOk(s: Shape, i: nat, tag: Tag)
    requires Ok(s) && i < |s.maps| && HasRoom(s, i, tag)
    ensures Ok(AddShape(s, i, tag))
  {
    var s' := AddShape(s, i, tag);
    forall i' | 0 <= i' < |s'.maps|
      ensures MapOk(s', i')
    {
      AddKeepsMaps(s, i, tag, i');
    }
    forall i': nat, tag': Tag
      ensures ChainOk(s', i', tag')
    {
      AddKeepsField(s, i, tag, i', tag');
      forall j | 0 <= j < |s'.Chain(i', tag')|
        ensures LinkOk(s', i', tag', j)
      {
        AddKeepsLink(s, i, tag, i', tag', j);
      }
    }
    forall p | 1 <= p < |s'.maps|
      ensures PlaceOk(s', p)
    {
      AddKeepsPlaces(s, i, tag, p);
    }
  }

  // ----- Any sequence of operations -----

  datatype StoreOp = SetField(i: nat, tag: Tag, offset: nat, length: nat) | AddInstance(i: nat, tag: Tag)

  /** Operations address a map that exists and has room; others are not called. */
  predicate Callable(s: Shape, op: StoreOp) {
    op.i < |s.maps| && HasRoom(s, op.i, op.tag)
  }

  function ApplyOp(s: Shape, op: StoreOp): Shape {
    if !Callable(s, op) then s
    else if op.SetField? then SetShape(s, op.i, op.tag, op.offset, op.length)
    else AddShape(s, op.i, op.tag)
  }

  function ApplyOps(s: Shape, ops: seq<StoreOp>): Shape
    decreases |ops|
  {
    if ops == [] then s else ApplyOps(ApplyOp(s, ops[0]), ops[1..])
  }

  /** The instances that these operations add to one field, in order. */
  function AddedTo(s: Shape, ops: seq<StoreOp>, i: nat, tag: Tag): seq<nat>
    decreases |ops|
  {
    if ops == [] then [] else Added(s, ops[0], i, tag) + AddedTo(ApplyOp(s, ops[0]), ops[1..], i, tag)
  }

  function Added(s: Shape, op: StoreOp, i: nat, tag: Tag): seq<nat> {
    if op == AddInstance(i, tag) && Callable(s, op) then [|s.maps|] else []
  }

  lemma ChainAfterOp(s: Shape, op: StoreOp, i: nat, tag: Tag)
    requires Ok(s)
    ensures Ok(ApplyOp(s, op)) && ApplyOp(s, op).Chain(i, tag) == s.Chain(i, tag) + Added(s, op, i, tag)
  {
    if Callable(s, op) {
      if op.SetField? {
        SetKeepsOk(s, op.i, op.tag, op.offset, op.length);
      } else {
        AddKeepsOk(s, op.i, op.tag);
      }
    }
  }

  /** The invariant holds throughout; and each chain is the instances that were added to its field, in the order in
      which they were added. Setting a field, be it the one that the chain hangs on, changes no chain. */
  lemma {:induction false} ChainsAreHistory(s: Shape, ops: seq<StoreOp>, i: nat, tag: Tag)
    requires Ok(s)
    ensures Ok(ApplyOps(s, ops))
    ensures ApplyOps(s, ops).Chain(i, tag) == s.Chain(i, tag) + AddedTo(s, ops, i, tag)
    decreases |ops|
  {
    if ops == [] {
      assert s.Chain(i, tag) + [] == s.Chain(i, tag);
    } else {
      var s' := ApplyOp(s, ops[0]);
      assert Ok(s') && s'.Chain(i, tag) == s.Chain(i, tag) + Added(s, ops[0], i, tag) by {
        ChainAfterOp(s, ops[0], i, tag);
      }
      ChainsAreHistory(s', ops[1..], i, tag);
      Associates(s.Chain(i, tag), Added(s, ops[0], i, tag), AddedTo(s', ops[1..], i, tag));
    }
  }

  // ----- The store -----

  /** The n-th of a chain, if there are so many. */
  function At(c: seq<nat>, n: nat): Option<nat> {
    if n < |c| then Some(c[n]) else None
  }

  class Store {
    /** The bytes that a map takes. */
    const mapSize: nat
    const maxMessageSize: nat
    const buffer: Buffer
    var maps: seq<MapRec>
    ghost var chains: map<(nat, Tag), seq<nat>>
    ghost var places: seq<Place>

    ghost function View(): Shape
      reads this
    {
      Shape(maps, chains, places)
    }

    /** The arena holds the root map, the message bytes, and then the other maps. */
    ghost predicate Valid()
      reads this, buffer
    {
      && Ok(View()) && buffer.Valid() && |buffer.live| == |maps| + 1
      && buffer.live[0].length == mapSize && buffer.live[1].length == maxMessageSize
      && forall k :: 2 <= k < |buffer.live| ==> buffer.live[k].length == mapSize
    }

    /** Where a map lies in the arena. */
    ghost function BlockOf(p: nat): Block
      reads this, buffer
      requires Valid() && p < |maps|
    {
      buffer.live[if p == 0 then 0 else p + 1]
    }

    /** No two maps overlap, and none overlaps the message bytes. */
    lemma MapsDoNotOverlap(p: nat, q: nat)
      requires Valid() && p < q < |maps|
      ensures BlockOf(p).length == BlockOf(q).length == mapSize
      ensures BlockOf(p).End() <= BlockOf(q).start && buffer.live[1].End() <= BlockOf(q).start
      ensures BlockOf(0).End() <= buffer.live[1].start && BlockOf(q).End() <= buffer.capacity
    {
      assert BlockOf(q).End() <= buffer.live[|buffer.live| - 1].End();
    }

    constructor (mapSize: nat, maxMessageSize: nat, capacity: nat)
      requires mapSize + maxMessageSize <= capacity
      ensures Valid() && View() == INITIAL && fresh(buffer)
      ensures this.mapSize == mapSize && this.maxMessageSize == maxMessageSize && buffer.capacity == capacity
      ensures buffer.offset == mapSize + maxMessageSize
    {
      this.mapSize, this.maxMessageSize := mapSize, maxMessageSize;
      var b := new Buffer(capacity);
      var root := b.Allocate(mapSize);
      var bytes := b.Allocate(maxMessageSize);
      buffer := b;
      maps := [EMPTY_REC];
      chains, places := INITIAL.chains, INITIAL.places;
      new;
      InitialOk();
    }

    /** FixMessage::reset. */
    method Reset()
      requires Valid() && mapSize + maxMessageSize <= buffer.capacity
      modifies this, buffer
      ensures Valid() && View() == INITIAL && buffer.offset == mapSize + maxMessageSize
    {
      buffer.Reset();
      var root := buffer.Allocate(mapSize);
      var bytes := buffer.Allocate(maxMessageSize);
      maps := [EMPTY_REC];
      chains, places := INITIAL.chains, INITIAL.places;
      InitialOk();
    }

    method Find(i: nat, tag: Tag) returns (k: Option<nat>)
      requires i < |maps|
      ensures k == FindRec(maps[i].list, tag)
    {
      var j := 0;
      while j < |maps[i].list|
        invariant 0 <= j <= |maps[i].list|
        invariant forall j' :: 0 <= j' < j ==> maps[i].list[j'].tag != tag
      {
        if maps[i].list[j].tag == tag {
          FoundAt(maps[i].list, tag, j);
          return Some(j);
        }
        j := j + 1;
      }
      k := None;
    }

    /** FieldMap::set by FieldList::put: stores a plain field, in the place of one with this tag if there is one; the
        group pointers of that one stay. */
    method Put(i: nat, tag: Tag, offset: nat, length: nat)
      requires Valid() && i < |maps| && HasRoom(View(), i, tag) && offset < 0x1_0000 && length < 0x1_0000
      modifies this
      ensures Valid() && View() == SetShape(old(View()), i, tag, offset, length)
    {
      ghost var s := View();
      SetKeepsOk(s, i, tag, offset, length);
      var list, f, j := maps[i].list, FieldRec(tag, offset, length, None, None), 0;
      while j < |list|
        invariant 0 <= j <= |list| && list == maps[i].list && unchanged(this)
        invariant forall j' :: 0 <= j' < j ==> list[j'].tag != tag
      {
        if list[j].tag == tag {
          FoundAt(list, tag, j);
          var savedGroups, savedTail := list[j].groups, list[j].tail;
          list := list[j := f];
          if savedGroups.Some? && f.groups.None? {
            list := list[j := f.(groups := savedGroups, tail := savedTail)];
          }
          PointersAgree(s, i, j);
          assert list == PutRec(s.maps[i].list, tag, offset, length);
          maps := maps[i := maps[i].(list := list)];
          return;
        }
        j := j + 1;
      }
      maps := maps[i := maps[i].(list := list + [f])];
    }

    /** FieldMap::addGroup: a new map from the arena, hung on the end of the chain of this tag. No map means that the
        arena is exhausted; then nothing changes. */
    method AddGroup(i: nat, tag: Tag) returns (fm: Option<nat>)
      requires Valid() && i < |maps| && HasRoom(View(), i, tag)
      modifies this, buffer
      ensures Valid()
      ensures fm == if old(buffer.offset) + mapSize <= buffer.capacity then Some(old(|maps|)) else None
      ensures View() == if fm.Some? then AddShape(old(View()), i, tag) else old(View())
      ensures buffer.offset == old(buffer.offset) + if fm.Some? then mapSize else 0
    {
      ghost var s := View();
      ghost var c := s.Chain(i, tag);
      AddKeepsOk(s, i, tag);
      var mem := buffer.Allocate(mapSize);
      if mem.None? {
        return None;
      }
      var p := |maps|;
      fm := Some(p);
      maps := maps + [EMPTY_REC];
      var k := Find(i, tag);
      var list := maps[i].list;
      if k.None? {
        maps := maps[i := maps[i].(list := list + [FieldRec(tag, 0, 0, fm, fm)])];
      } else if list[k.value].groups.None? {
        maps := maps[i := maps[i].(list := list[k.value := list[k.value].(groups := fm, tail := fm)])];
      } else {
        assert MapOk(s, i) && LinksEnds(s, i, list[k.value]) && ChainOk(s, i, tag) && LinkOk(s, i, tag, |c| - 1);
        var tail := list[k.value].tail.value;
        maps := maps[tail := maps[tail].(next := fm)];
        maps := maps[i := maps[i].(list := list[k.value := list[k.value].(tail := fm)])];
      }
      assert MapOk(s, i) && ChainOk(s, i, tag);
      assert maps == AddShape(s, i, tag).maps;
      chains, places := AddShape(s, i, tag).chains, AddShape(s, i, tag).places;
    }

    /** Field::group: follows the chain n times. */
    method Group(i: nat, k: nat, n: nat) returns (p: Option<nat>)
      requires Valid() && i < |maps| && k < |maps[i].list|
      ensures p == At(View().Chain(i, maps[i].list[k].tag), n)
    {
      ghost var c := View().Chain(i, maps[i].list[k].tag);
      assert MapOk(View(), i) && LinksEnds(View(), i, maps[i].list[k]) && ChainOk(View(), i, maps[i].list[k].tag);
      p := maps[i].list[k].groups;
      var left := n;
      while left > 0
        invariant 0 <= left <= n && p == At(c, n - left)
      {
        if p.None? {
          return None;
        }
        assert LinkOk(View(), i, maps[i].list[k].tag, n - left);
        left := left - 1;
        p := maps[p.value].next;
      }
    }

    /** Field::groupCount: follows the chain to its end, which there is. */
    method GroupCount(i: nat, k: nat) returns (count: nat)
      requires Valid() && i < |maps| && k < |maps[i].list|
      ensures count == |View().Chain(i, maps[i].list[k].tag)|
    {
      ghost var c := View().Chain(i, maps[i].list[k].tag);
      assert MapOk(View(), i) && LinksEnds(View(), i, maps[i].list[k]) && ChainOk(View(), i, maps[i].list[k].tag);
      var p := maps[i].list[k].groups;
      count := 0;
      while p.Some?
        invariant count <= |c| && p == At(c, count)
        decreases |c| - count
      {
        assert LinkOk(View(), i, maps[i].list[k].tag, count);
        count := count + 1;
        p := maps[p.value].next;
      }
    }

    /** FieldMap::getGroup. */
    method GetGroup(i: nat, tag: Tag, index: nat) returns (p: Option<nat>)
      requires Valid() && i < |maps|
      ensures p == At(View().Chain(i, tag), index)
    {
      assert MapOk(View(), i) && ChainOk(View(), i, tag);
      var k := Find(i, tag);
      if k.None? {
        return None;
      }
      assert LinksEnds(View(), i, maps[i].list[k.value]);
      if maps[i].list[k.value].groups.None? {
        return None;
      }
      p := Group(i, k.value, index);
    }
  }

  lemma {:induction false} FoundAt(list: seq<FieldRec>, tag: Tag, k: nat)
    requires k < |list| && list[k].tag == tag && forall j :: 0 <= j < k ==> list[j].tag != tag
    ensures FindRec(list, tag) == Some(k)
  {
    if k > 0 {
      FoundAt(list[1..], tag, k - 1);
    }
  }

  /** A field has both pointers or neither. */
  lemma PointersAgree(s: Shape, i: nat, k: nat)
    requires Ok(s) && i < |s.maps| && k < |s.maps[i].list|
    ensures s.maps[i].list[k].groups.None? <==> s.maps[i].list[k].tail.None?
  {
    assert MapOk(s, i) && LinksEnds(s, i, s.maps[i].list[k]);
  }
}
