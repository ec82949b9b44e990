/** FixMessage::parse as it runs (core/Parser.cpp:14-128): a scanning loop over a byte buffer that is filled from a
    stream on demand, pointers into the arena of field maps, and a stack of them. */
module Parser {
  import opened Orders
  import opened FixBytes
  import opened FixTags
  import opened Scanner
  import opened GroupTree
  import opened FieldStore
  import opened HeapTrees
  import opened Rooms

  /** The input stream. */
  class Stream {
    const bytes: Bytes
    var pos: nat

    constructor (bytes: Bytes)
      ensures this.bytes == bytes && pos == 0
    {
      this.bytes := bytes;
      pos := 0;
    }

    ghost predicate Valid()
      reads this
    {
      pos <= |bytes|
    }

    /** get: one byte into the buffer. */
    method Get(buffer: array<Byte>, at: nat) returns (ok: bool)
      requires Valid() && (pos < |bytes| ==> at < buffer.Length)
      modifies this, buffer
      ensures Valid() && ok == (old(pos) < |bytes|) && pos == old(pos) + if ok then 1 else 0
      ensures forall k :: 0 <= k < buffer.Length ==>
                buffer[k] == if ok && k == at then bytes[old(pos)] else old(buffer[k])
    {
      if pos == |bytes| {
        return false;
      }
      buffer[at] := bytes[pos];
      pos := pos + 1;
      ok := true;
    }

    /** read: n bytes into the buffer, or all that are left. */
    method Read(buffer: array<Byte>, at: nat, n: nat) returns (ok: bool)
      requires Valid() && at + (if pos + n <= |bytes| then n else |bytes| - pos) <= buffer.Length
      modifies this, buffer
      ensures Valid() && ok == (old(pos) + n <= |bytes|) && pos == if ok then old(pos) + n else |bytes|
      ensures forall k :: 0 <= k < buffer.Length ==>
                buffer[k] == if at <= k < at + (pos - old(pos)) then bytes[old(pos) + (k - at)] else old(buffer[k])
    {
      ok := pos + n <= |bytes|;
      var count := if ok then n else |bytes| - pos;
      forall k | at <= k < at + count {
        buffer[k] := bytes[pos + (k - at)];
      }
      pos := pos + count;
    }
  }

  /** The buffer holds the first `end` bytes of what was in the stream from position `from` on, and these have been
      taken from it. */
  ghost predicate Buffered(input: Stream, buffer: array<Byte>, from: nat, end: nat)
    reads input, buffer
  {
    && input.Valid() && from <= input.pos && end == input.pos - from <= buffer.Length
    && forall k :: 0 <= k < end ==> buffer[k] == input.bytes[from + k]
  }

  function UpTo(stream: Bytes, b: Byte, cp: nat): nat
    requires cp <= |stream|
  {
    var r := IndexOf(stream, b, cp);
    if r.Some? then r.value + 1 else |stream|
  }

  /** The two scanning loops: from cp on to the next b, taking single bytes from the stream where the buffer ends. */
  method ScanTo(input: Stream, buffer: array<Byte>, ghost from: nat, b: Byte, cp: nat, end: nat)
      returns (found: bool, cp': nat, end': nat)
    requires Buffered(input, buffer, from, end) && cp <= end
    requires var stream := input.bytes[from..]; Max(end, UpTo(stream, b, cp)) <= buffer.Length
    modifies input, buffer
    ensures Buffered(input, buffer, from, end') && cp <= cp' <= end'
    ensures var stream := input.bytes[from..];
      && IndexOf(stream, b, cp) == (if found then Some(cp') else None)
      && end' == Max(end, UpTo(stream, b, cp))
  {
    ghost var stream := input.bytes[from..];
    cp', end' := cp, end;
    while true
      invariant Buffered(input, buffer, from, end') && cp <= cp' <= end' <= |stream|
      invariant IndexOf(stream, b, cp') == IndexOf(stream, b, cp)
      invariant end <= end' && (end' > end ==> end' == cp')
      decreases |stream| - cp'
    {
      if cp' == end' {
        assert cp' < |stream| ==> UpTo(stream, b, cp') > cp';
        var ok := input.Get(buffer, end');
        if !ok {
          return false, cp', end';
        }
        end' := end' + 1;
      }
      assert buffer[cp'] == stream[cp'];
      if buffer[cp'] == b {
        return true, cp', end';
      }
      cp' := cp' + 1;
    }
  }

  // ----- Groups -----

  /** Every stored field lies in the bytes that have been read, with an SOH behind it. */
  ghost predicate FieldsInside(s: Shape, stream: Bytes, end: nat) {
    forall i, k :: 0 <= i < |s.maps| && 0 <= k < |s.maps[i].list| ==> FieldInside(s.maps[i].list[k], stream, end)
  }

  ghost predicate FieldInside(f: FieldRec, stream: Bytes, end: nat) {
    f.offset + f.length < end <= |stream| && stream[f.offset + f.length] == SOH
  }

  lemma SetInside(s: Shape, i: nat, t: Token, stream: Bytes, end: nat)
    requires i < |s.maps| && FieldsInside(s, stream, end) && t.End() < end <= |stream| && stream[t.End()] == SOH
    ensures FieldsInside(SetShape(s, i, t.tag, t.offset, t.length), stream, end)
  {
    var s' := SetShape(s, i, t.tag, t.offset, t.length);
    forall i', k | 0 <= i' < |s'.maps| && 0 <= k < |s'.maps[i'].list|
      ensures FieldInside(s'.maps[i'].list[k], stream, end)
    {
      if k < |s.maps[i'].list| {
        assert FieldInside(s.maps[i'].list[k], stream, end);
      }
    }
  }

  lemma AddInside(s: Shape, i: nat, tag: Tag, stream: Bytes, end: nat)
    requires Ok(s) && i < |s.maps| && FieldsInside(s, stream, end) && FindRec(s.maps[i].list, tag).Some?
    ensures FieldsInside(AddShape(s, i, tag), stream, end)
  {
    var s' := AddShape(s, i, tag);
    forall i', k | 0 <= i' < |s'.maps| && 0 <= k < |s'.maps[i'].list|
      ensures FieldInside(s'.maps[i'].list[k], stream, end)
    {
      if i' < |s.maps| {
        AddedLists(s, i, tag, i');
        assert FieldInside(s.maps[i'].list[k], stream, end);
      }
    }
  }

  lemma InsideLater(s: Shape, stream: Bytes, end: nat, end': nat)
    requires FieldsInside(s, stream, end) && end <= end' <= |stream|
    ensures FieldsInside(s, stream, end')
  {
    forall i, k | 0 <= i < |s.maps| && 0 <= k < |s.maps[i].list|
      ensures FieldInside(s.maps[i].list[k], stream, end')
    {
      assert FieldInside(s.maps[i].list[k], stream, end);
    }
  }

  /** The parser's pointers stand for the machine, and every field of the store is where it says. */
  ghost predicate InStep(store: Store, stream: Bytes, end: nat, stack: seq<nat>, map_: nat, m: Machine)
    reads store, store.buffer
  {
    store.Valid() && Represents(store.View(), stack, map_, m) && FieldsInside(store.View(), stream, end)
  }

  /** The first bytes of the stream are in the buffer. */
  ghost predicate Holds(buffer: array<Byte>, stream: Bytes, end: nat)
    reads buffer
  {
    end <= |stream| && end <= buffer.Length && buffer[..end] == stream[..end]
  }

  lemma SliceOfPrefix(s: Bytes, i: nat, j: nat, end: nat)
    requires i <= j <= end <= |s|
    ensures s[..end][i..j] == s[i..j]
  {
  }

  /** getInt of a stored field. */
  method GetInt(T: TagTable, buffer: array<Byte>, ghost stream: Bytes, ghost end: nat, f: FieldRec) returns (value: int)
    requires T.texts != [] && Holds(buffer, stream, end) && FieldInside(f, stream, end)
    ensures value == Announced(T, stream, FieldV(f.tag, f.offset, f.length, []))
  {
    if f.tag == T.Invalid() {
      return 0;
    }
    assert buffer[..end][f.offset + f.length] == stream[..end][f.offset + f.length];
    value := ParseLong(buffer, f.offset, f.offset + f.length);
    SliceOfPrefix(buffer[..], f.offset, f.offset + f.length, end);
    SliceOfPrefix(stream, f.offset, f.offset + f.length, end);
    assert buffer[..][..end] == buffer[..end];
    assert buffer[..][f.offset..f.offset + f.length] == buffer[f.offset..f.offset + f.length];
  }

  /** A new instance on a field of the map, which becomes the current one. */
  method Open(store: Store, ghost stream: Bytes, ghost end: nat, ghost stack: seq<nat>, map_: nat, tag: Tag,
              ghost m: Machine)
      returns (fm: nat)
    requires InStep(store, stream, end, stack, map_, m) && FindRec(store.maps[map_].list, tag).Some?
    requires store.buffer.offset + store.mapSize <= store.buffer.capacity
    modifies store, store.buffer
    ensures InStep(store, stream, end, stack + [map_], fm, OpenGroup(m, tag))
    ensures store.buffer.offset == old(store.buffer.offset) + store.mapSize
  {
    OpenRepresented(store.View(), stack, map_, m, tag);
    AddInside(store.View(), map_, tag, stream, end);
    var added := store.AddGroup(map_, tag);
    fm := added.value;
  }

  /** At an end tag: stay, go back to the parent, or go on to a sibling. */
  datatype Decision = Stay | Back | Sibling

  function Act(m: Machine, d: Decision, count: Tag): Machine
    requires m.stack != []
  {
    match d
    case Stay => m
    case Back => Popped(m)
    case Sibling => OpenGroup(Popped(m), count)
  }

  /** After a turn that has stored a field, the current map is empty only if an instance has been opened. */
  lemma ActOpens(m: Machine, d: Decision, count: Tag)
    requires m.stack != [] && m.current.fields != []
    ensures HasOpened(Act(m, d, count)) <==> d.Sibling?
  {
  }

  /** Decided in the store, by the count field of the parent and the instances on it. */
  function Decided(T: TagTable, s: Shape, stream: Bytes, parent: nat, count: Tag): Decision
    requires T.texts != [] && parent < |s.maps|
  {
    var k := FindRec(s.maps[parent].list, count);
    if k.None? then Stay
    else if |s.Chain(parent, count)| >= AnnouncedBy(T, stream, s.maps[parent].list[k.value]) then Back
    else Sibling
  }

  function AnnouncedBy(T: TagTable, stream: Bytes, f: FieldRec): int
    requires T.texts != []
  {
    Announced(T, stream, FieldV(f.tag, f.offset, f.length, []))
  }

  /** The machine decides on its tree as the parser does in the store. */
  lemma MachineDecides(T: TagTable, s: Shape, stream: Bytes, parent: nat, def: GroupDef, m: Machine)
    requires T.texts != [] && parent < |s.maps| && m.stack != [] && Tree(s, parent) == Parent(m)
    ensures GroupTree.CloseInstance(T, stream, m, def) == Act(m, Decided(T, s, stream, parent, def.count), def.count)
  {
    FieldRepresented(s, parent, def.count);
  }

  method Decide(T: TagTable, store: Store, buffer: array<Byte>, ghost stream: Bytes, ghost end: nat, parent: nat,
                count: Tag)
      returns (d: Decision)
    requires T.texts != [] && Holds(buffer, stream, end) && store.Valid() && FieldsInside(store.View(), stream, end)
    requires parent < |store.maps|
    ensures d == Decided(T, store.View(), stream, parent, count)
  {
    var k := store.Find(parent, count);
    if k.None? {
      return Stay;
    }
    var f := store.maps[parent].list[k.value];
    assert FieldInside(store.View().maps[parent].list[k.value], stream, end);
    var expected := GetInt(T, buffer, stream, end, f);
    var received := store.GroupCount(parent, k.value);
    return if received >= expected then Back else Sibling;
  }

  method OpenSibling(store: Store, ghost stream: Bytes, ghost end: nat, stack: seq<nat>, count: Tag,
                     ghost below: Machine)
      returns (fm: nat)
    requires stack != [] && InStep(store, stream, end, stack[..|stack| - 1], stack[|stack| - 1], below)
    requires FindRec(store.maps[stack[|stack| - 1]].list, count).Some?
    requires store.buffer.offset + store.mapSize <= store.buffer.capacity
    modifies store, store.buffer
    ensures InStep(store, stream, end, stack, fm, OpenGroup(below, count))
    ensures store.buffer.offset == old(store.buffer.offset) + store.mapSize
  {
    assert stack == stack[..|stack| - 1] + [stack[|stack| - 1]];
    fm := Open(store, stream, end, stack[..|stack| - 1], stack[|stack| - 1], count, below);
  }

  /** The current map has got an end tag: back to its parent, or on to a sibling. */
  method CloseInstance(store: Store, ghost stream: Bytes, ghost end: nat, stack: seq<nat>, map_: nat, d: Decision,
                       count: Tag, ghost m: Machine)
      returns (stack': seq<nat>, map': nat)
    requires InStep(store, stream, end, stack, map_, m) && stack != []
    requires InStep(store, stream, end, stack[..|stack| - 1], stack[|stack| - 1], Popped(m))
    requires d.Sibling? ==> FindRec(store.maps[stack[|stack| - 1]].list, count).Some?
                            && store.buffer.offset + store.mapSize <= store.buffer.capacity
    modifies store, store.buffer
    ensures InStep(store, stream, end, stack', map', Act(m, d, count))
    ensures store.buffer.offset == old(store.buffer.offset) + if d.Sibling? then store.mapSize else 0
  {
    match d
    case Stay =>
      return stack, map_;
    case Back =>
      return stack[..|stack| - 1], stack[|stack| - 1];
    case Sibling =>
      map' := OpenSibling(store, stream, end, stack, count, Popped(m));
      stack' := stack;
  }

  /** The loop over the group definitions. */
  method Regroup(T: TagTable, store: Store, buffer: array<Byte>, ghost stream: Bytes, ghost end: nat,
                 stack: seq<nat>, map_: nat, defs: seq<GroupDef>, tag: Tag, ghost m: Machine)
      returns (stack': seq<nat>, map': nat)
    requires T.texts != [] && Holds(buffer, stream, end) && InStep(store, stream, end, stack, map_, m) && m.defs == defs
    requires FindRec(store.maps[map_].list, tag).Some? && m.current.fields != []
    requires HasOpened(GroupTree.Regroup(T, stream, m, tag)) ==>
      store.buffer.offset + store.mapSize <= store.buffer.capacity
    modifies store, store.buffer
    ensures InStep(store, stream, end, stack', map', GroupTree.Regroup(T, stream, m, tag))
    ensures store.buffer.offset ==
      old(store.buffer.offset) + if HasOpened(GroupTree.Regroup(T, stream, m, tag)) then store.mapSize else 0
  {
    var i := 0;
    while i < |defs|
      invariant 0 <= i <= |defs| && FirstMatch(defs[i..], tag) == FirstMatch(defs, tag)
      invariant unchanged(store, store.buffer)
    {
      assert defs[i..][1..] == defs[i + 1..];
      if defs[i].count == tag {
        map' := Open(store, stream, end, stack, map_, tag, m);
        stack' := stack + [map_];
        return;
      }
      if defs[i].end == tag {
        if stack == [] {
          return stack, map_;
        }
        var parent := stack[|stack| - 1];
        PopRepresented(store.View(), stack, map_, m);
        MachineDecides(T, store.View(), stream, parent, defs[i], m);
        var d := Decide(T, store, buffer, stream, end, parent, defs[i].count);
        ActOpens(m, d, defs[i].count);
        stack', map' := CloseInstance(store, stream, end, stack, map_, d, defs[i].count, m);
        return;
      }
      i := i + 1;
    }
    return stack, map_;
  }

  // ----- The whole parse -----

  function Ahead(done: seq<Token>, r: Scan): Scan {
    r.(tokens := done + r.tokens)
  }

  /** In the middle of a parse: these fields are done, the machine stands where they lead, and what is left to find from
      `start` on, with `end` bytes read, completes the parse. */
  ghost predicate Parsing(next: Lexer, goal: Goal, step: Stepper, size: nat, whole: Scan, done: seq<Token>, m: Machine,
                          start: nat, end: nat) {
    && start <= end <= size && Lexes(next, size) && m == FeedAll(step, START, done)
    && whole == Ahead(done, Prefetching(next, goal, size, start, end))
  }

  lemma ParsingStarts(T: TagTable, groups: GroupDefs, stream: Bytes)
    requires T.texts != []
    ensures Parsing(LexerOf(T, stream), GoalOf(stream), StepperOf(T, groups, stream), |stream|, Parsed(T, stream),
                    [], START, 0, 0)
  {
    LexerOfLexes(T, stream);
    var r := Parsed(T, stream);
    assert [] + r.tokens == r.tokens;
  }

  /** The field at `start`, or the end of the input, lies within what the parse consumes. */
  lemma ParsingConsumes(next: Lexer, goal: Goal, step: Stepper, size: nat, whole: Scan, done: seq<Token>, m: Machine,
                        start: nat, end: nat)
    requires Parsing(next, goal, step, size, whole, done, m, start, end)
    ensures Max(end, if next(start).Some? then next(start).value.End() + 1 else size) <= whole.consumed <= size
  {
  }

  /** No field begins at `start`, or a CheckSum field: the parse ends here. */
  lemma ParsingEnds(next: Lexer, goal: Goal, step: Stepper, size: nat, whole: Scan, done: seq<Token>, m: Machine,
                    start: nat, end: nat)
    requires Parsing(next, goal, step, size, whole, done, m, start, end)
    requires next(start).Some? ==> next(start).value.tag == CHECK_SUM
    ensures whole.consumed == Max(end, if next(start).Some? then next(start).value.End() + 1 else size)
    ensures Final(step, whole) == m && Regrouped(whole) == done
  {
    assert done + [] == done;
  }

  /** The bulk read comes up short: the field is stored, but no group is opened or closed. */
  lemma ParsingFallsShort(next: Lexer, goal: Goal, step: Stepper, size: nat, whole: Scan, done: seq<Token>, m: Machine,
                          start: nat, end: nat, t: Token)
    requires Parsing(next, goal, step, size, whole, done, m, start, end) && next(start) == Some(t) && t.tag != CHECK_SUM
    requires ReadPast(goal, t, end) > size
    ensures whole.consumed == size && Final(step, whole) == m.(current := Put(m.current, t)) && Regrouped(whole) == done
  {
    assert (done + [t])[..|done|] == done;
  }

  lemma ParsingGoesOn(next: Lexer, goal: Goal, step: Stepper, size: nat, whole: Scan, done: seq<Token>, m: Machine,
                      start: nat, end: nat, t: Token)
    requires Parsing(next, goal, step, size, whole, done, m, start, end) && next(start) == Some(t) && t.tag != CHECK_SUM
    requires ReadPast(goal, t, end) <= size
    ensures Parsing(next, goal, step, size, whole, done + [t], step(m, t), t.End() + 1, ReadPast(goal, t, end))
  {
    FeedConcat(step, START, done, [t]);
    FeedOne(step, m, t);
    var rest := Prefetching(next, goal, size, t.End() + 1, ReadPast(goal, t, end));
    assert done + ([t] + rest.tokens) == done + [t] + rest.tokens;
  }

  /** There is a place for the field just found. */
  lemma ParsingFits(next: Lexer, goal: Goal, step: Stepper, size: nat, whole: Scan, done: seq<Token>, m: Machine,
                    start: nat, end: nat, t: Token)
    requires Parsing(next, goal, step, size, whole, done, m, start, end) && next(start) == Some(t) && t.tag != CHECK_SUM
    requires Roomy(step, START, whole.tokens)
    ensures FieldFits(m, t)
  {
    CostConcat(step, START, done, Prefetching(next, goal, size, start, end).tokens);
  }

  /** No more instances have been opened yet than the whole parse opens. */
  lemma ParsingOpens(next: Lexer, goal: Goal, step: Stepper, size: nat, whole: Scan, done: seq<Token>, m: Machine,
                     start: nat, end: nat)
    requires Parsing(next, goal, step, size, whole, done, m, start, end)
    ensures Openings(step, START, done) <= Openings(step, START, Regrouped(whole))
  {
    var rest := Prefetching(next, goal, size, start, end);
    RegroupedAhead(done, rest);
    CostConcat(step, START, done, Regrouped(rest));
  }

  lemma RegroupedAhead(done: seq<Token>, rest: Scan)
    requires rest.stop == ShortRead ==> rest.tokens != []
    ensures Regrouped(Ahead(done, rest)) == done + Regrouped(rest)
  {
  }

  class FixMessage {
    const store: Store
    const msgBytes: array<Byte>

    ghost predicate Valid()
      reads this, store, store.buffer
    {
      && store.Valid() && msgBytes.Length == store.maxMessageSize
      && store.mapSize + store.maxMessageSize <= store.buffer.capacity
    }

    constructor (mapSize: nat, maxMessageSize: nat)
      requires mapSize <= 3 * maxMessageSize
      ensures Valid() && fresh(store) && fresh(store.buffer) && fresh(msgBytes) && msgBytes.Length == maxMessageSize
    {
      store := new Store(mapSize, maxMessageSize, 4 * maxMessageSize);
      msgBytes := new Byte[maxMessageSize];
    }
  }

  /** What is in the stream from a position on. */
  ghost function Rest(input: Stream, from: nat): Bytes
    requires from <= |input.bytes|
  {
    input.bytes[from..]
  }

  /** The announced length, taken from the map in which it has just been stored. */
  method BodyLengthOf(buffer: array<Byte>, ghost stream: Bytes, ghost end: nat, store: Store, map_: nat, ghost t: Token)
      returns (value: int)
    requires Holds(buffer, stream, end) && t.End() < end && stream[t.End()] == SOH && map_ < |store.maps|
    requires var k := FindRec(store.maps[map_].list, BODY_LENGTH);
      k.Some? && store.maps[map_].list[k.value].offset == t.offset && store.maps[map_].list[k.value].length == t.length
    ensures GoalOf(stream)(t) == t.End() + value + 7
  {
    var k := store.Find(map_, BODY_LENGTH);
    var f := store.maps[map_].list[k.value];
    assert buffer[..end][t.End()] == stream[..end][t.End()];
    value := ParseLong(buffer, f.offset, f.offset + f.length);
    SliceOfPrefix(buffer[..], t.offset, t.End(), end);
    SliceOfPrefix(stream, t.offset, t.End(), end);
    assert buffer[..][..end] == buffer[..end];
    assert buffer[..][t.offset..t.End()] == buffer[t.offset..t.End()];
  }

  /** The bulk read: on to seven bytes past the announced body, counted from cp, unless these have been read already. */
  method ReadAhead(input: Stream, buffer: array<Byte>, ghost from: nat, bodyLength: int, cp: nat, end: nat)
      returns (ok: bool, end': nat)
    requires Buffered(input, buffer, from, end) && cp < end
    requires var goal, size := Max(end, cp + bodyLength + 7), |input.bytes| - from;
      (if goal <= size then goal else size) <= buffer.Length
    modifies input, buffer
    ensures var goal, size := Max(end, cp + bodyLength + 7), |input.bytes| - from;
      && ok == (goal <= size) && (ok ==> end' == goal)
      && Buffered(input, buffer, from, if ok then goal else size)
  {
    var toRead := bodyLength + 7 - (end - cp);
    ok, end' := true, end;
    if toRead > 0 {
      ok := input.Read(buffer, end, toRead);
      if ok {
        end' := end + toRead;
      }
    }
  }

  /** Both scanning loops: the next field, if the stream holds all of it. */
  method ScanField(T: TagTable, input: Stream, buffer: array<Byte>, ghost from: nat, start: nat, end: nat)
      returns (found: bool, tag: Tag, offset: nat, cp: nat, end': nat)
    requires T.texts != [] && Buffered(input, buffer, from, end) && start <= end
    requires var stream := Rest(input, from);
      var r := NextToken(T, stream, start);
      Max(end, if r.Some? then r.value.End() + 1 else |stream|) <= buffer.Length
    modifies input, buffer
    ensures var stream := Rest(input, from);
      && found == NextToken(T, stream, start).Some?
      && (found ==> offset <= cp && NextToken(T, stream, start) == Some(Token(tag, offset, cp - offset))
                    && end' == Max(end, cp + 1))
      && Buffered(input, buffer, from, if found then end' else |stream|)
  {
    ghost var stream := Rest(input, from);
    tag, offset := 0, 0;
    found, cp, end' := ScanTo(input, buffer, from, EQUALS, start, end);
    if !found {
      return;
    }
    tag := TagOf(T, buffer[start..cp]);
    assert buffer[start..cp] == stream[start..cp];
    cp := cp + 1;
    offset := cp;
    found, cp, end' := ScanTo(input, buffer, from, SOH, cp, end');
  }

  lemma PutIsFound(list: seq<FieldRec>, tag: Tag, offset: nat, length: nat)
    ensures var list' := PutRec(list, tag, offset, length);
      var k := FindRec(list', tag);
      k.Some? && list'[k.value].offset == offset && list'[k.value].length == length
  {
    var list' := PutRec(list, tag, offset, length);
    var k := FindRec(list, tag);
    if k.Some? {
      FindStays(list, list', tag);
    } else {
      assert list'[|list|].tag == tag;
    }
  }

  /** The field is stored in the current map. */
  method StoreField(store: Store, ghost stream: Bytes, ghost end: nat, ghost stack: seq<nat>, map_: nat, tag: Tag,
                    offset: nat, length: nat, ghost m: Machine)
    requires InStep(store, stream, end, stack, map_, m) && offset + length < end <= |stream|
    requires offset + length < 0x1_0000 && stream[offset + length] == SOH
    requires FieldFits(m, Token(tag, offset, length))
    modifies store
    ensures InStep(store, stream, end, stack, map_, m.(current := Put(m.current, Token(tag, offset, length))))
    ensures store.buffer.offset == old(store.buffer.offset)
    ensures var k := FindRec(store.maps[map_].list, tag);
      k.Some? && store.maps[map_].list[k.value].offset == offset && store.maps[map_].list[k.value].length == length
  {
    ghost var s, t := store.View(), Token(tag, offset, length);
    FieldRepresented(s, map_, tag);
    SetRepresented(s, stack, map_, m, t);
    SetInside(s, map_, t, stream, end);
    PutIsFound(s.maps[map_].list, tag, offset, length);
    store.Put(map_, tag, offset, length);
  }

  /** GroupDefs::defs. */
  method LookUp(groups: GroupDefs, msgType: Bytes) returns (defs: Option<seq<GroupDef>>)
    ensures defs.Some? <==> msgType in groups
    ensures DefsFor(groups, msgType) == Known(defs)
  {
    defs := if msgType in groups then Some(groups[msgType]) else None;
  }

  function Known(defs: Option<seq<GroupDef>>): seq<GroupDef> {
    if defs.Some? then defs.value else []
  }

  /** A parse in the abstract: where fields lie, how far the bulk read wants to get, how the machine moves, what the
      whole parse of the stream finds, and where it can stand between two fields. */
  datatype Setting = Setting(next: Lexer, goal: Goal, step: Stepper, size: nat, whole: Scan, between: Standing)

  type Standing = (seq<Token>, Machine, nat, nat) -> bool

  ghost function SettingFor(T: TagTable, groups: GroupDefs, stream: Bytes): Setting
    requires T.texts != []
  {
    var next, goal, step, whole := LexerOf(T, stream), GoalOf(stream), StepperOf(T, groups, stream), Parsed(T, stream);
    Setting(next, goal, step, |stream|, whole,
            (done: seq<Token>, m: Machine, start: nat, end: nat) =>
              Parsing(next, goal, step, |stream|, whole, done, m, start, end))
  }

  /** These mark the places where one of the facts below is wanted. */
  ghost predicate AskedAt(i: nat) { true }

  ghost predicate AskedToken(t: Token) { true }

  ghost predicate AskedStep(m: Machine, t: Token) { true }

  ghost predicate AskedStanding(done: seq<Token>, m: Machine, start: nat, end: nat) { true }

  ghost predicate Linked(g: Setting, T: TagTable, groups: GroupDefs, stream: Bytes) {
    && T.texts != [] && g.size == |stream|
    && (forall i: nat {:trigger AskedAt(i)} :: i <= |stream| ==> g.next(i) == NextToken(T, stream, i))
    && (forall t: Token {:trigger AskedToken(t)} :: g.goal(t) == GoalOf(stream)(t))
    && (forall m: Machine, t: Token {:trigger AskedStep(m, t)} :: g.step(m, t) == Feed(T, groups, stream, m, t))
  }

  ghost predicate Stands(g: Setting) {
    forall done: seq<Token>, m: Machine, start: nat, end: nat {:trigger AskedStanding(done, m, start, end)} ::
      g.between(done, m, start, end) <==> Parsing(g.next, g.goal, g.step, g.size, g.whole, done, m, start, end)
  }

  lemma SettingIsLinked(T: TagTable, groups: GroupDefs, stream: Bytes)
    requires T.texts != []
    ensures Linked(SettingFor(T, groups, stream), T, groups, stream) && Stands(SettingFor(T, groups, stream))
    ensures SettingFor(T, groups, stream).between([], START, 0, 0)
  {
    ParsingStarts(T, groups, stream);
  }

  /** What the original presupposes: the message buffer takes all bytes that are read, and offsets into it are 16 bits
      wide; no map gets more than its 64 fields; the arena has room for the root map, for the message bytes, and for a
      map for each group instance that is opened. */
  ghost predicate Affords(g: Setting, msg: FixMessage) {
    && g.whole.consumed <= msg.msgBytes.Length <= 0x1_0000
    && Needs(msg, Openings(g.step, START, Regrouped(g.whole))) <= msg.store.buffer.capacity
    && Roomy(g.step, START, g.whole.tokens)
  }

  /** The part of the arena that is in use when n instances have been opened. */
  ghost function Needs(msg: FixMessage, n: nat): nat {
    msg.store.mapSize + msg.store.maxMessageSize + msg.store.mapSize * n
  }

  lemma NeedsOneMore(msg: FixMessage, n: nat)
    ensures Needs(msg, n + 1) == Needs(msg, n) + msg.store.mapSize
  {
  }

  /** The original returns here: everything is as the whole parse says. */
  ghost predicate Finished(g: Setting, input: Stream, msg: FixMessage, from: nat)
    reads input, msg, msg.msgBytes, msg.store, msg.store.buffer
  {
    && msg.store.Valid() && Tree(msg.store.View(), 0) == Root(Final(g.step, g.whole))
    && Buffered(input, msg.msgBytes, from, g.whole.consumed) && Spared(g, msg, Regrouped(g.whole))
  }

  /** The arena holds just the maps for the instances that have been opened. */
  ghost predicate Spared(g: Setting, msg: FixMessage, done: seq<Token>)
    reads msg, msg.store, msg.store.buffer
  {
    msg.store.buffer.offset == Needs(msg, Openings(g.step, START, done))
  }

  lemma BufferedHolds(input: Stream, buffer: array<Byte>, from: nat, end: nat)
    requires Buffered(input, buffer, from, end) && from <= |input.bytes|
    ensures Holds(buffer, Rest(input, from), end)
  {
  }

  lemma MultiplyMore(a: nat, b: nat, c: nat)
    requires b <= c
    ensures a * b <= a * c
  {
  }

  /** At BodyLength, the bulk read. */
  method ReadBody(ghost stream: Bytes, input: Stream, buffer: array<Byte>, ghost from: nat, store: Store, map_: nat,
                  tag: Tag, ghost t: Token, cp: nat, end: nat, ghost consumed: nat)
      returns (ok: bool, end': nat)
    requires from <= |input.bytes| && stream == Rest(input, from) && Buffered(input, buffer, from, end)
    requires t.tag == tag && t.End() == cp < end <= consumed <= |stream| && stream[cp] == SOH
             && consumed <= buffer.Length
    requires map_ < |store.maps|
    requires var k := FindRec(store.maps[map_].list, tag);
      k.Some? && store.maps[map_].list[k.value].offset == t.offset && store.maps[map_].list[k.value].length == t.length
    requires var past := ReadPast(GoalOf(stream), t, end);
      if past <= |stream| then past <= consumed else consumed == |stream|
    modifies input, buffer
    ensures var past := ReadPast(GoalOf(stream), t, end);
      && ok == (past <= |stream|) && (ok ==> end' == past)
      && Buffered(input, buffer, from, if ok then past else |stream|)
  {
    ok, end' := true, end;
    if tag == BODY_LENGTH {
      BufferedHolds(input, buffer, from, end);
      var bodyLength := BodyLengthOf(buffer, stream, end, store, map_, t);
      ok, end' := ReadAhead(input, buffer, from, bodyLength, cp, end);
    }
  }

  /** At MsgType the definitions are looked up; then the loop over them. */
  method Continue(T: TagTable, groups: GroupDefs, store: Store, buffer: array<Byte>, ghost stream: Bytes,
                  ghost end: nat, stack: seq<nat>, map_: nat, defs: Option<seq<GroupDef>>, tag: Tag, offset: nat,
                  cp: nat, ghost m: Machine, ghost opens: bool)
      returns (stack': seq<nat>, map': nat, defs': Option<seq<GroupDef>>, ghost m': Machine)
    requires T.texts != [] && Holds(buffer, stream, end) && offset <= cp < end && m.defs == Known(defs)
    requires InStep(store, stream, end, stack, map_, m.(current := Put(m.current, Token(tag, offset, cp - offset))))
    requires FindRec(store.maps[map_].list, tag).Some?
    requires opens == HasOpened(Feed(T, groups, stream, m, Token(tag, offset, cp - offset)))
    requires opens ==> store.buffer.offset + store.mapSize <= store.buffer.capacity
    modifies store, store.buffer
    ensures m' == Feed(T, groups, stream, m, Token(tag, offset, cp - offset)) && m'.defs == Known(defs')
    ensures InStep(store, stream, end, stack', map', m')
    ensures store.buffer.offset == old(store.buffer.offset) + if opens then store.mapSize else 0
  {
    stack', map', defs' := stack, map_, defs;
    ghost var t := Token(tag, offset, cp - offset);
    if tag == MSG_TYPE {
      SliceOfPrefix(buffer[..], offset, cp, end);
      SliceOfPrefix(stream, offset, cp, end);
      assert buffer[offset..cp] == ValueOf(stream, t) by {
        assert buffer[..][..end] == buffer[..end];
        assert buffer[..][offset..cp] == buffer[offset..cp];
      }
      defs' := LookUp(groups, buffer[offset..cp]);
    }
    ghost var ready := Machine(m.stack, Put(m.current, t), Known(defs'));
    DefsDoNotMatter(store.View(), stack, map_, m.(current := Put(m.current, t)), ready);
    m' := GroupTree.Regroup(T, stream, ready, tag);
    RegroupKeepsDefs(T, stream, ready, tag);
    if defs'.Some? {
      stack', map' := Regroup(T, store, buffer, stream, end, stack, map_, defs'.value, tag, ready);
    }
  }

  lemma {:induction false} DefsDoNotMatter(s: Shape, stack: seq<nat>, map_: nat, m: Machine, m': Machine)
    requires Represents(s, stack, map_, m) && m'.stack == m.stack && m'.current == m.current
    ensures Represents(s, stack, map_, m')
    decreases |stack|
  {
    if stack != [] {
      DefsDoNotMatter(s, stack[..|stack| - 1], stack[|stack| - 1], Popped(m), Popped(m'));
    }
  }

  lemma RegroupKeepsDefs(T: TagTable, stream: Bytes, m: Machine, tag: Tag)
    requires T.texts != []
    ensures GroupTree.Regroup(T, stream, m, tag).defs == m.defs
  {
  }

  /** What is known of a field that has just been found: there is a place for it in the current map, and room for
      another map if it is going to open an instance; the bulk read after it stays within what the parse consumes. */
  ghost predicate Takable(stream: Bytes, msg: FixMessage, m: Machine, t: Token, read: nat, past: nat, consumed: nat,
                          opens: bool)
    reads msg, msg.store, msg.store.buffer
  {
    && t.End() < read <= consumed <= |stream| && stream[t.End()] == SOH && consumed <= msg.msgBytes.Length <= 0x1_0000
    && FieldFits(m, t)
    && (past <= |stream| && opens ==> msg.store.buffer.offset + msg.store.mapSize <= msg.store.buffer.capacity)
    && if past <= |stream| then past <= consumed else consumed == |stream|
  }

  /** The field is stored, and at BodyLength the body is read. */
  method StoreAndRead(ghost stream: Bytes, input: Stream, msg: FixMessage, ghost from: nat, ghost stack: seq<nat>,
                      map_: nat, tag: Tag, offset: nat, cp: nat, read: nat, ghost past: nat, ghost consumed: nat,
                      ghost m: Machine, ghost opens: bool)
      returns (ok: bool, end': nat)
    requires from <= |input.bytes| && stream == Rest(input, from) && Buffered(input, msg.msgBytes, from, read)
    requires InStep(msg.store, stream, read, stack, map_, m) && offset <= cp
    requires Takable(stream, msg, m, Token(tag, offset, cp - offset), read, past, consumed, opens)
    requires past == ReadPast(GoalOf(stream), Token(tag, offset, cp - offset), read)
    modifies input, msg.msgBytes, msg.store
    ensures ok == (past <= |stream|) && (ok ==> end' == past)
    ensures Buffered(input, msg.msgBytes, from, if ok then past else |stream|)
    ensures InStep(msg.store, stream, read, stack, map_, m.(current := Put(m.current, Token(tag, offset, cp - offset))))
    ensures FindRec(msg.store.maps[map_].list, tag).Some?
    ensures msg.store.buffer.offset == old(msg.store.buffer.offset)
  {
    StoreField(msg.store, stream, read, stack, map_, tag, offset, cp - offset, m);
    ghost var t := Token(tag, offset, cp - offset);
    ok, end' := ReadBody(stream, input, msg.msgBytes, from, msg.store, map_, tag, t, cp, read, consumed);
  }

  /** The field is stored, at BodyLength the body is read, and groups are opened or closed. */
  method TakeField(T: TagTable, groups: GroupDefs, ghost stream: Bytes, input: Stream, msg: FixMessage, ghost from: nat,
                   stack: seq<nat>, map_: nat, defs: Option<seq<GroupDef>>, tag: Tag, offset: nat, cp: nat, read: nat,
                   ghost past: nat, ghost consumed: nat, ghost m: Machine, ghost opens: bool)
      returns (ok: bool, stack': seq<nat>, map': nat, defs': Option<seq<GroupDef>>, end': nat)
    requires T.texts != [] && offset <= cp && m.defs == Known(defs)
    requires from <= |input.bytes| && stream == Rest(input, from) && Buffered(input, msg.msgBytes, from, read)
    requires InStep(msg.store, stream, read, stack, map_, m)
    requires Takable(stream, msg, m, Token(tag, offset, cp - offset), read, past, consumed, opens)
    requires past == ReadPast(GoalOf(stream), Token(tag, offset, cp - offset), read)
    requires opens == HasOpened(Feed(T, groups, stream, m, Token(tag, offset, cp - offset)))
    modifies input, msg.msgBytes, msg.store, msg.store.buffer
    ensures ok == (past <= |stream|) && Buffered(input, msg.msgBytes, from, if ok then past else |stream|)
    ensures ok ==> end' == past && var m' := Feed(T, groups, stream, m, Token(tag, offset, cp - offset));
      InStep(msg.store, stream, past, stack', map', m') && m'.defs == Known(defs')
    ensures !ok ==>
      InStep(msg.store, stream, read, stack, map_, m.(current := Put(m.current, Token(tag, offset, cp - offset))))
    ensures msg.store.buffer.offset == old(msg.store.buffer.offset) + if ok && opens then msg.store.mapSize else 0
  {
    var buffer, store := msg.msgBytes, msg.store;
    stack', map', defs' := stack, map_, defs;
    ok, end' := StoreAndRead(stream, input, msg, from, stack, map_, tag, offset, cp, read, past, consumed, m,
                                  opens);
    if ok {
      ghost var m';
      assert Holds(buffer, stream, end') by {
        BufferedHolds(input, buffer, from, end');
      }
      assert FieldsInside(store.View(), stream, end') by {
        InsideLater(store.View(), stream, read, end');
      }
      stack', map', defs', m' := Continue(T, groups, store, buffer, stream, end', stack, map_, defs, tag, offset, cp, m,
                                             opens);
    }
  }

  /** The same, in the abstract. */
  method TakeInSetting(ghost g: Setting, T: TagTable, groups: GroupDefs, ghost stream: Bytes, input: Stream,
                       msg: FixMessage, ghost from: nat, stack: seq<nat>, map_: nat, defs: Option<seq<GroupDef>>,
                       tag: Tag, offset: nat, cp: nat, read: nat, ghost past: nat, ghost m: Machine, ghost opens: bool)
      returns (ok: bool, stack': seq<nat>, map': nat, defs': Option<seq<GroupDef>>, end': nat)
    requires Linked(g, T, groups, stream) && offset <= cp && m.defs == Known(defs)
    requires from <= |input.bytes| && stream == Rest(input, from) && Buffered(input, msg.msgBytes, from, read)
    requires InStep(msg.store, stream, read, stack, map_, m)
    requires Takable(stream, msg, m, Token(tag, offset, cp - offset), read, past, g.whole.consumed, opens)
    requires past == ReadPast(g.goal, Token(tag, offset, cp - offset), read)
    requires opens == HasOpened(g.step(m, Token(tag, offset, cp - offset)))
    modifies input, msg.msgBytes, msg.store, msg.store.buffer
    ensures ok == (past <= g.size) && Buffered(input, msg.msgBytes, from, if ok then past else g.size)
    ensures ok ==> end' == past && var m' := g.step(m, Token(tag, offset, cp - offset));
      InStep(msg.store, stream, past, stack', map', m') && m'.defs == Known(defs')
    ensures !ok ==>
      InStep(msg.store, stream, read, stack, map_, m.(current := Put(m.current, Token(tag, offset, cp - offset))))
    ensures msg.store.buffer.offset == old(msg.store.buffer.offset) + if ok && opens then msg.store.mapSize else 0
  {
    ghost var t := Token(tag, offset, cp - offset);
    assert AskedToken(t) && AskedStep(m, t);
    ok, stack', map', defs', end' := TakeField(T, groups, stream, input, msg, from, stack, map_, defs, tag, offset, cp,
                                               read, past, g.whole.consumed, m, opens);
  }

  /** What comes after a field: the parse goes on, or ends with it because the bulk read comes up short. */
  ghost predicate LeadsOn(g: Setting, done: seq<Token>, m: Machine, t: Token, past: nat) {
    if past <= g.size then
      g.between(done + [t], g.step(m, t), t.End() + 1, past) && OpensWith(g, done, m, t)
    else
      && g.whole.consumed == g.size
      && Final(g.step, g.whole) == m.(current := Put(m.current, t)) && Regrouped(g.whole) == done
  }

  ghost predicate OpensWith(g: Setting, done: seq<Token>, m: Machine, t: Token) {
    Openings(g.step, START, done + [t]) == Openings(g.step, START, done) + if HasOpened(g.step(m, t)) then 1 else 0
  }

  lemma ParsingOpensWith(g: Setting, done: seq<Token>, m: Machine, start: nat, end: nat, t: Token)
    requires Parsing(g.next, g.goal, g.step, g.size, g.whole, done, m, start, end)
    ensures OpensWith(g, done, m, t)
  {
    CostConcat(g.step, START, done, [t]);
    CostOne(g.step, m, t);
  }

  lemma ParsingReadsPast(next: Lexer, goal: Goal, step: Stepper, size: nat, whole: Scan, done: seq<Token>, m: Machine,
                         start: nat, end: nat, t: Token)
    requires Parsing(next, goal, step, size, whole, done, m, start, end) && next(start) == Some(t) && t.tag != CHECK_SUM
    ensures var past := ReadPast(goal, t, end);
      && past == ReadPast(goal, t, Max(end, t.End() + 1))
      && if past <= size then past <= whole.consumed else whole.consumed == size
  {
  }

  lemma FieldTaken(g: Setting, done: seq<Token>, m: Machine, start: nat, end: nat, t: Token)
    requires Stands(g) && g.between(done, m, start, end) && g.next(start) == Some(t) && t.tag != CHECK_SUM
    ensures LeadsOn(g, done, m, t, ReadPast(g.goal, t, Max(end, t.End() + 1)))
  {
    assert AskedStanding(done, m, start, end);
    assert AskedStanding(done + [t], g.step(m, t), t.End() + 1, ReadPast(g.goal, t, end));
    ParsingReadsPast(g.next, g.goal, g.step, g.size, g.whole, done, m, start, end, t);
    if ReadPast(g.goal, t, end) <= g.size {
      ParsingGoesOn(g.next, g.goal, g.step, g.size, g.whole, done, m, start, end, t);
      ParsingOpensWith(g, done, m, start, end, t);
    } else {
      ParsingFallsShort(g.next, g.goal, g.step, g.size, g.whole, done, m, start, end, t);
    }
  }

  /** If the field opens an instance, there is room for its map. */
  lemma RoomForMap(g: Setting, msg: FixMessage, done: seq<Token>, m: Machine, start: nat, end: nat, t: Token)
    requires Stands(g) && Affords(g, msg) && g.between(done + [t], g.step(m, t), start, end) && Spared(g, msg, done)
    requires OpensWith(g, done, m, t) && HasOpened(g.step(m, t))
    ensures msg.store.buffer.offset + msg.store.mapSize <= msg.store.buffer.capacity
  {
    assert AskedStanding(done + [t], g.step(m, t), start, end);
    ParsingOpens(g.next, g.goal, g.step, g.size, g.whole, done + [t], g.step(m, t), start, end);
    MultiplyMore(msg.store.mapSize, Openings(g.step, START, done + [t]), Openings(g.step, START, Regrouped(g.whole)));
    NeedsOneMore(msg, Openings(g.step, START, done));
  }

  /** A field found in the middle of a parse can be taken, and it is known what comes after it. */
  lemma FoundIsTakable(g: Setting, stream: Bytes, msg: FixMessage, done: seq<Token>, m: Machine, start: nat, end: nat,
                       t: Token)
    requires Stands(g) && Affords(g, msg) && g.between(done, m, start, end) && Spared(g, msg, done)
    requires g.size == |stream|
    requires g.next(start) == Some(t) && t.tag != CHECK_SUM && t.End() < |stream| && stream[t.End()] == SOH
    ensures var read := Max(end, t.End() + 1);
      && LeadsOn(g, done, m, t, ReadPast(g.goal, t, read))
      && Takable(stream, msg, m, t, read, ReadPast(g.goal, t, read), g.whole.consumed, HasOpened(g.step(m, t)))
  {
    FieldTaken(g, done, m, start, end, t);
    assert AskedStanding(done, m, start, end);
    var past := ReadPast(g.goal, t, Max(end, t.End() + 1));
    ParsingFits(g.next, g.goal, g.step, g.size, g.whole, done, m, start, end, t);
    if past <= g.size && HasOpened(g.step(m, t)) {
      RoomForMap(g, msg, done, m, t.End() + 1, past, t);
    }
    ParsingConsumes(g.next, g.goal, g.step, g.size, g.whole, done, m, start, end);
    ParsingReadsPast(g.next, g.goal, g.step, g.size, g.whole, done, m, start, end, t);
  }

  /** At the head of the parser's loop. */
  ghost predicate AtLoop(g: Setting, stream: Bytes, input: Stream, msg: FixMessage, from: nat, stack: seq<nat>,
                         map_: nat, defs: Option<seq<GroupDef>>, start: nat, end: nat, done: seq<Token>, m: Machine)
    reads input, msg, msg.msgBytes, msg.store, msg.store.buffer
  {
    && Affords(g, msg) && from <= |input.bytes| && stream == Rest(input, from)
    && g.between(done, m, start, end) && Buffered(input, msg.msgBytes, from, end)
    && InStep(msg.store, stream, end, stack, map_, m) && m.defs == Known(defs) && Spared(g, msg, done)
  }

  /** Behind the scanning loops: a field has been found. */
  ghost predicate AtField(g: Setting, stream: Bytes, input: Stream, msg: FixMessage, from: nat, stack: seq<nat>,
                          map_: nat, defs: Option<seq<GroupDef>>, t: Token, read: nat, done: seq<Token>, m: Machine)
    reads input, msg, msg.msgBytes, msg.store, msg.store.buffer
  {
    && Affords(g, msg) && from <= |input.bytes| && stream == Rest(input, from)
    && Buffered(input, msg.msgBytes, from, read)
    && InStep(msg.store, stream, read, stack, map_, m) && m.defs == Known(defs) && Spared(g, msg, done)
    && Takable(stream, msg, m, t, read, ReadPast(g.goal, t, read), g.whole.consumed, HasOpened(g.step(m, t)))
    && LeadsOn(g, done, m, t, ReadPast(g.goal, t, read))
  }

  /** The scanning part of a turn: the field that begins at `start` has been read; or the parse is over, and everything
      it consumes has been read. */
  method FindNext(ghost g: Setting, T: TagTable, ghost groups: GroupDefs, ghost stream: Bytes, input: Stream,
                  buffer: array<Byte>, ghost from: nat, start: nat, end: nat, ghost done: seq<Token>, ghost m: Machine)
      returns (found: bool, tag: Tag, offset: nat, cp: nat, end': nat)
    requires Stands(g) && Linked(g, T, groups, stream) && from <= |input.bytes| && stream == Rest(input, from)
    requires g.between(done, m, start, end) && Buffered(input, buffer, from, end) && g.whole.consumed <= buffer.Length
    modifies input, buffer
    ensures found ==> start < offset <= cp < |stream| && stream[cp] == SOH && tag != CHECK_SUM
    ensures found ==> g.next(start) == Some(Token(tag, offset, cp - offset))
    ensures found ==> end' == Max(end, cp + 1) && Buffered(input, buffer, from, end')
    ensures !found ==>
      Final(g.step, g.whole) == m && Regrouped(g.whole) == done && Buffered(input, buffer, from, g.whole.consumed)
  {
    assert AskedAt(start) && AskedStanding(done, m, start, end);
    assert g.next(start) == NextToken(T, stream, start);
    ParsingConsumes(g.next, g.goal, g.step, g.size, g.whole, done, m, start, end);
    found, tag, offset, cp, end' := ScanField(T, input, buffer, from, start, end);
    if !found || tag == CHECK_SUM {
      ParsingEnds(g.next, g.goal, g.step, g.size, g.whole, done, m, start, end);
      found := false;
    }
  }

  method NextField(ghost g: Setting, T: TagTable, ghost groups: GroupDefs, ghost stream: Bytes, input: Stream,
                   msg: FixMessage, ghost from: nat, ghost stack: seq<nat>, ghost map_: nat,
                   ghost defs: Option<seq<GroupDef>>, start: nat, end: nat, ghost done: seq<Token>, ghost m: Machine)
      returns (found: bool, tag: Tag, offset: nat, cp: nat, read: nat)
    requires Stands(g) && Linked(g, T, groups, stream)
    requires AtLoop(g, stream, input, msg, from, stack, map_, defs, start, end, done, m)
    modifies input, msg.msgBytes
    ensures found ==> start < offset <= cp
    ensures found ==> AtField(g, stream, input, msg, from, stack, map_, defs, Token(tag, offset, cp - offset), read,
                              done, m)
    ensures !found ==> Finished(g, input, msg, from)
  {
    found, tag, offset, cp, read := FindNext(g, T, groups, stream, input, msg.msgBytes, from, start, end, done, m);
    if found {
      ghost var t := Token(tag, offset, cp - offset);
      FoundIsTakable(g, stream, msg, done, m, start, end, t);
      InsideLater(msg.store.View(), stream, end, read);
    } else {
      RootRepresented(msg.store.View(), stack, map_, m);
    }
  }

  lemma SparedStep(g: Setting, msg: FixMessage, done: seq<Token>, m: Machine, t: Token, before: nat)
    requires before == Needs(msg, Openings(g.step, START, done)) && OpensWith(g, done, m, t)
    requires msg.store.buffer.offset == before + if HasOpened(g.step(m, t)) then msg.store.mapSize else 0
    ensures Spared(g, msg, done + [t])
  {
    NeedsOneMore(msg, Openings(g.step, START, done));
  }

  /** The part of a turn behind the scanning loops. */
  method TakeFound(ghost g: Setting, T: TagTable, groups: GroupDefs, ghost stream: Bytes, input: Stream,
                   msg: FixMessage, ghost from: nat, stack: seq<nat>, map_: nat, defs: Option<seq<GroupDef>>,
                   tag: Tag, offset: nat, cp: nat, read: nat, ghost done: seq<Token>, ghost m: Machine)
      returns (goOn: bool, stack': seq<nat>, map': nat, defs': Option<seq<GroupDef>>, start': nat, end': nat,
               ghost done': seq<Token>, ghost m': Machine)
    requires Stands(g) && Linked(g, T, groups, stream) && offset <= cp
    requires AtField(g, stream, input, msg, from, stack, map_, defs, Token(tag, offset, cp - offset), read, done, m)
    modifies input, msg.msgBytes, msg.store, msg.store.buffer
    ensures goOn ==> AtLoop(g, stream, input, msg, from, stack', map', defs', start', end', done', m')
    ensures !goOn ==> Finished(g, input, msg, from)
    ensures start' == cp + 1
  {
    ghost var t, before := Token(tag, offset, cp - offset), msg.store.buffer.offset;
    goOn, stack', map', defs', end' := TakeInSetting(g, T, groups, stream, input, msg, from, stack, map_, defs, tag,
                                                     offset, cp, read, ReadPast(g.goal, t, read), m,
                                                     HasOpened(g.step(m, t)));
    start', done', m' := cp + 1, done + [t], g.step(m, t);
    if goOn {
      SparedStep(g, msg, done, m, t, before);
    } else {
      RootRepresented(msg.store.View(), stack, map_, m.(current := Put(m.current, t)));
    }
  }

  /** FixMessage::parse: the root map that it leaves in the arena is the tree that the stream stands for, whatever the
      bytes of the stream, and it takes exactly the bytes from the stream that a parse of it consumes. */
  method Parse(T: TagTable, input: Stream, msg: FixMessage, groups: GroupDefs)
    requires T.texts != [] && input.Valid() && msg.Valid()
    requires Affords(SettingFor(T, groups, Rest(input, input.pos)), msg)
    modifies input, msg.msgBytes, msg.store, msg.store.buffer
    ensures msg.Valid() && input.Valid()
    ensures var stream := Rest(input, old(input.pos));
      && Tree(msg.store.View(), 0) == ParsedTree(T, groups, stream)
      && input.pos == old(input.pos) + Parsed(T, stream).consumed
      && Holds(msg.msgBytes, stream, Parsed(T, stream).consumed)
      && msg.store.buffer.offset ==
           Needs(msg, Openings(StepperOf(T, groups, stream), START, Regrouped(Parsed(T, stream))))
  {
    ghost var from := input.pos;
    ghost var stream := Rest(input, from);
    ghost var g := SettingFor(T, groups, stream);
    SettingIsLinked(T, groups, stream);
    ParseAll(g, T, groups, stream, input, msg);
    BufferedHolds(input, msg.msgBytes, from, g.whole.consumed);
  }

  /** FixMessage::reset. */
  method Clear(msg: FixMessage)
    requires msg.Valid()
    modifies msg.msgBytes, msg.store, msg.store.buffer
    ensures msg.Valid() && msg.store.View() == INITIAL
    ensures msg.store.buffer.offset == msg.store.mapSize + msg.store.maxMessageSize
  {
    msg.store.Reset();
    forall k | 0 <= k < msg.msgBytes.Length {
      msg.msgBytes[k] := 0;
    }
  }

  method ParseAll(ghost g: Setting, T: TagTable, groups: GroupDefs, ghost stream: Bytes, input: Stream, msg: FixMessage)
    requires Stands(g) && Linked(g, T, groups, stream) && Affords(g, msg) && g.between([], START, 0, 0)
    requires input.Valid() && stream == Rest(input, input.pos) && msg.Valid()
    modifies input, msg.msgBytes, msg.store, msg.store.buffer
    ensures Finished(g, input, msg, old(input.pos))
  {
    ghost var from := input.pos;
    Clear(msg);
    var start, end, map_ := 0, 0, 0;
    var stack, defs := [], None;
    ghost var done, m := [], START;
    assert AtLoop(g, stream, input, msg, from, stack, map_, defs, start, end, done, m) by {
      assert msg.store.mapSize * 0 == 0;
      assert InStep(msg.store, stream, end, stack, map_, m) by {
        StartRepresented();
      }
    }
    var goOn := true;
    while goOn
      invariant goOn ==> AtLoop(g, stream, input, msg, from, stack, map_, defs, start, end, done, m)
      invariant !goOn ==> Finished(g, input, msg, from)
      decreases if goOn then |stream| + 1 - start else 0
    {
      var found, tag, offset, cp, read :=
        NextField(g, T, groups, stream, input, msg, from, stack, map_, defs, start, end, done, m);
      if !found {
        break;
      }
      goOn, stack, map_, defs, start, end, done, m :=
        TakeFound(g, T, groups, stream, input, msg, from, stack, map_, defs, tag, offset, cp, read, done, m);
    }
  }
}
