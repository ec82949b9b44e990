/** From fields to a tree of field maps (core/Parser.cpp:76-126): the stack machine for nested repeating groups, and the
    messages it rebuilds. */
module GroupTree {
  import opened Orders
  import opened FixBytes
  import opened FixTags
  import opened Scanner
  import opened Encoding
  import opened Sequences

  // ----- Field maps as values -----

  /** A stored field and the group instances that hang on it. */
  datatype FieldV = FieldV(tag: Tag, offset: nat, length: nat, groups: seq<MapV>)

  /** The fields of one map in insertion order. */
  datatype MapV = MapV(fields: seq<FieldV>)

  const EMPTY_MAP := MapV([])

  /** Position of the field with this tag, if there is one. */
  function FindField(fields: seq<FieldV>, tag: Tag): (r: Option<nat>)
    ensures r.Some? ==> r.value < |fields| && fields[r.value].tag == tag
    ensures r.None? ==> forall f :: f in fields ==> f.tag != tag
  {
    if fields == [] then None
    else if fields[0].tag == tag then Some(0)
    else
      var r := FindField(fields[1..], tag);
      if r.None? then None else Some(r.value + 1)
  }

  /** A plain field overwrites one with its tag but keeps the group instances of that one. */
  function Put(m: MapV, t: Token): MapV {
    var i := FindField(m.fields, t.tag);
    if i.Some? then MapV(m.fields[i.value := FieldV(t.tag, t.offset, t.length, m.fields[i.value].groups)])
    else MapV(m.fields + [FieldV(t.tag, t.offset, t.length, [])])
  }

  function AddGroup(m: MapV, tag: Tag, child: MapV): MapV {
    var i := FindField(m.fields, tag);
    if i.Some? then MapV(m.fields[i.value := m.fields[i.value].(groups := m.fields[i.value].groups + [child])])
    else MapV(m.fields + [FieldV(tag, 0, 0, [child])])
  }

  // ----- The machine -----

  /** `count` opens a group, `end` closes an instance. */
  datatype GroupDef = GroupDef(count: Tag, end: Tag)

  type GroupDefs = map<Bytes, seq<GroupDef>>

  datatype Match = NoMatch | Opens(def: GroupDef) | Closes(def: GroupDef)

  /** The first definition that the tag concerns. */
  function FirstMatch(defs: seq<GroupDef>, tag: Tag): Match {
    if defs == [] then NoMatch
    else if defs[0].count == tag then Opens(defs[0])
    else if defs[0].end == tag then Closes(defs[0])
    else FirstMatch(defs[1..], tag)
  }

  /** An unfinished map on the stack, without its last group instance, which hangs on `tag` and is being filled. */
  datatype Frame = Frame(map_: MapV, tag: Tag)

  datatype Machine = Machine(stack: seq<Frame>, current: MapV, defs: seq<GroupDef>)

  const START := Machine([], EMPTY_MAP, [])

  /** The map on top of the stack with the instance being filled in its place. */
  function Parent(m: Machine): MapV
    requires m.stack != []
  {
    var top := m.stack[|m.stack| - 1];
    AddGroup(top.map_, top.tag, m.current)
  }

  function Popped(m: Machine): Machine
    requires m.stack != []
  {
    Machine(m.stack[..|m.stack| - 1], Parent(m), m.defs)
  }

  /** The root map. */
  function Root(m: Machine): MapV
    decreases |m.stack|
  {
    if m.stack == [] then m.current else Root(Popped(m))
  }

  function OpenGroup(m: Machine, tag: Tag): Machine {
    Machine(m.stack + [Frame(m.current, tag)], EMPTY_MAP, m.defs)
  }

  /** The number a count field announces. */
  function Announced(T: TagTable, input: Bytes, f: FieldV): int
    requires T.texts != []
  {
    if f.tag == T.Invalid() || f.offset + f.length > |input| then 0
    else ParseSigned(input[f.offset..f.offset + f.length])
  }

  /** The end tag of def has been stored in the current map. */
  function CloseInstance(T: TagTable, input: Bytes, m: Machine, def: GroupDef): Machine
    requires T.texts != []
  {
    if m.stack == [] then
      m
    else
      var parent := Parent(m);
      var i := FindField(parent.fields, def.count);
      if i.None? then m
      else if |parent.fields[i.value].groups| >= Announced(T, input, parent.fields[i.value]) then Popped(m)
      else OpenGroup(Popped(m), def.count)
  }

  function Regroup(T: TagTable, input: Bytes, m: Machine, tag: Tag): Machine
    requires T.texts != []
  {
    match FirstMatch(m.defs, tag)
    case NoMatch => m
    case Opens(_) => OpenGroup(m, tag)
    case Closes(def) => CloseInstance(T, input, m, def)
  }

  function DefsFor(groups: GroupDefs, msgType: Bytes): seq<GroupDef> {
    if msgType in groups then groups[msgType] else []
  }

  /** One turn of the parser's loop: store the field, look up the group definitions at MsgType, and open, continue or
      close a group. */
  function Feed(T: TagTable, groups: GroupDefs, input: Bytes, m: Machine, t: Token): Machine
    requires T.texts != []
  {
    var stored := m.(current := Put(m.current, t));
    var ready := if t.tag == MSG_TYPE && t.End() <= |input| then stored.(defs := DefsFor(groups, ValueOf(input, t)))
                 else stored;
    Regroup(T, input, ready, t.tag)
  }

  type Stepper = (Machine, Token) -> Machine

  function StepperOf(T: TagTable, groups: GroupDefs, input: Bytes): Stepper
    requires T.texts != []
  {
    (m: Machine, t: Token) => Feed(T, groups, input, m, t)
  }

  function FeedAll(step: Stepper, m: Machine, tokens: seq<Token>): Machine
    decreases |tokens|
  {
    if tokens == [] then m else FeedAll(step, step(m, tokens[0]), tokens[1..])
  }

  /** Where the machine stands when the parser returns. A bulk read that comes up short ends the parser right after the
      BodyLength field has been stored. */
  function Final(step: Stepper, r: Scan): Machine {
    if r.stop == ShortRead && r.tokens != [] then
      var m := FeedAll(step, START, r.tokens[..|r.tokens| - 1]);
      m.(current := Put(m.current, r.tokens[|r.tokens| - 1]))
    else FeedAll(step, START, r.tokens)
  }

  /** What parsing a stream leaves: the root map. */
  ghost function ParsedTree(T: TagTable, groups: GroupDefs, stream: Bytes): MapV
    requires T.texts != []
  {
    Root(Final(StepperOf(T, groups, stream), Parsed(T, stream)))
  }

  // ----- Message trees -----

  /** An item is a plain field or a group: the text of its count field and its instances, each of which ends with a
      field that carries the end tag. */
  datatype Item = PlainField(tag: Tag, value: Bytes) | Group(def: GroupDef, count: Bytes, instances: seq<Instance>)

  datatype Instance = Instance(items: seq<Item>, last: Bytes)

  function ItemTag(item: Item): Tag {
    if item.PlainField? then item.tag else item.def.count
  }

  /** The fields of a message in the order in which they are sent. */
  function Flatten(items: seq<Item>): seq<FieldText> {
    if items == [] then []
    else FlattenItem(items[0]) + Flatten(items[1..])
  }

  function FlattenItem(item: Item): seq<FieldText> {
    match item
    case PlainField(tag, value) => [FieldText(tag, value)]
    case Group(def, count, instances) => [FieldText(def.count, count)] + FlattenInstances(def, instances)
  }

  function FlattenInstances(def: GroupDef, instances: seq<Instance>): seq<FieldText>
    decreases instances
  {
    if instances == [] then []
    else
      Flatten(instances[0].items) + [FieldText(def.end, instances[0].last)] + FlattenInstances(def, instances[1..])
  }

  // ----- The tree of maps that a message stands for -----

  function Stored(t: Token): FieldV {
    FieldV(t.tag, t.offset, t.length, [])
  }

  /** The fields for a list of items that is sent from `at` on: one for each item, in order, with one map for each
      group instance, in order. */
  function MapFields(T: TagTable, items: seq<Item>, at: nat): seq<FieldV>
    decreases items
  {
    if items == [] then []
    else [ItemField(T, items[0], at)] + MapFields(T, items[1..], at + Size(T, FlattenItem(items[0])))
  }

  function ItemField(T: TagTable, item: Item, at: nat): FieldV
    decreases item
  {
    match item
    case PlainField(tag, value) => Stored(TokenAt(T, FieldText(tag, value), at))
    case Group(def, count, instances) =>
      var t := TokenAt(T, FieldText(def.count, count), at);
      Stored(t).(groups := InstanceMaps(T, def, instances, t.End() + 1))
  }

  function InstanceMaps(T: TagTable, def: GroupDef, instances: seq<Instance>, at: nat): seq<MapV>
    decreases instances
  {
    if instances == [] then []
    else
      var inner := instances[0].items;
      var t := TokenAt(T, FieldText(def.end, instances[0].last), at + Size(T, Flatten(inner)));
      [MapV(MapFields(T, inner, at) + [Stored(t)])] + InstanceMaps(T, def, instances[1..], t.End() + 1)
  }

  // ----- Which messages -----

  /** The k-th of the definitions is the first that the tag concerns. */
  ghost predicate Concerns(defs: seq<GroupDef>, tag: Tag, k: nat) {
    && k < |defs| && (defs[k].count == tag || defs[k].end == tag)
    && forall j :: 0 <= j < k ==> defs[j].count != tag && defs[j].end != tag
  }

  /** This definition is among the definitions, and no earlier one concerns its count tag; */
  ghost predicate OpensFirst(defs: seq<GroupDef>, def: GroupDef) {
    exists k: nat :: Concerns(defs, def.count, k) && defs[k] == def
  }

  /** or its end tag. */
  ghost predicate ClosesFirst(defs: seq<GroupDef>, def: GroupDef) {
    def.end != def.count && exists k: nat :: Concerns(defs, def.end, k) && defs[k] == def
  }

  /** A plain field with this tag does not disturb the groups: no definition concerns it, or one for whose end tag the
      enclosing map, if there is one, has no count field. `above` are the tags of the enclosing map. */
  ghost predicate Harmless(defs: seq<GroupDef>, tag: Tag, above: Option<set<Tag>>) {
    forall k: nat :: Concerns(defs, tag, k) ==>
      defs[k].count != tag && (above.None? || defs[k].count !in above.value)
  }

  lemma OnlyOneConcerns(defs: seq<GroupDef>, tag: Tag, j: nat, k: nat)
    requires Concerns(defs, tag, j) && Concerns(defs, tag, k)
    ensures j == k
  {
  }

  /** The search through the definitions finds the first that the tag concerns, wherever in the list it is. */
  lemma {:induction false} FirstMatchConcerns(defs: seq<GroupDef>, tag: Tag, k: nat)
    ensures FirstMatch(defs, tag).NoMatch? ==> !Concerns(defs, tag, k)
    ensures Concerns(defs, tag, k) ==>
      FirstMatch(defs, tag) == if defs[k].count == tag then Opens(defs[k]) else Closes(defs[k])
    decreases |defs|
  {
    if defs != [] && defs[0].count != tag && defs[0].end != tag {
      assert forall j :: 0 <= j < |defs[1..]| ==> defs[1..][j] == defs[j + 1];
      if k > 0 {
        FirstMatchConcerns(defs[1..], tag, k - 1);
        assert Concerns(defs, tag, k) ==> Concerns(defs[1..], tag, k - 1);
      }
    }
  }

  lemma {:induction false} MatchIsAmong(defs: seq<GroupDef>, tag: Tag) returns (k: nat)
    requires !FirstMatch(defs, tag).NoMatch?
    ensures Concerns(defs, tag, k)
    ensures FirstMatch(defs, tag) == if defs[k].count == tag then Opens(defs[k]) else Closes(defs[k])
    decreases |defs|
  {
    k := 0;
    if defs[0].count != tag && defs[0].end != tag {
      var i := MatchIsAmong(defs[1..], tag);
      assert forall j :: 0 <= j < |defs[1..]| ==> defs[1..][j] == defs[j + 1];
      k := i + 1;
    }
  }

  lemma FirstIsMatched(defs: seq<GroupDef>, def: GroupDef)
    ensures OpensFirst(defs, def) ==> FirstMatch(defs, def.count) == Opens(def)
    ensures ClosesFirst(defs, def) ==> FirstMatch(defs, def.end) == Closes(def)
  {
    if OpensFirst(defs, def) {
      var k: nat :| Concerns(defs, def.count, k) && defs[k] == def;
      FirstMatchConcerns(defs, def.count, k);
    }
    if ClosesFirst(defs, def) {
      var k: nat :| Concerns(defs, def.end, k) && defs[k] == def;
      FirstMatchConcerns(defs, def.end, k);
    }
  }

  /** What the search finds for a harmless tag. */
  lemma HarmlessMatch(defs: seq<GroupDef>, tag: Tag, above: Option<set<Tag>>)
    requires Harmless(defs, tag, above)
    ensures !FirstMatch(defs, tag).Opens?
    ensures FirstMatch(defs, tag).Closes? ==> above.None? || FirstMatch(defs, tag).def.count !in above.value
  {
    if !FirstMatch(defs, tag).NoMatch? {
      var k := MatchIsAmong(defs, tag);
    }
  }

  /** The announced number is the number of instances. Since an instance is opened before the number is looked at, a
      single instance may also be announced by a smaller number. */
  predicate CountFits(announced: int, instances: nat) {
    if instances == 1 then announced <= 1 else announced == instances
  }

  /** Tags are distinct within each map; groups are over the definitions, announce their number of instances, which is
      at least one, and each instance ends with the end tag of its group and does not use it before. */
  ghost predicate Legal(T: TagTable, defs: seq<GroupDef>, items: seq<Item>, above: Option<set<Tag>>, used: set<Tag>)
    requires T.texts != []
    decreases items
  {
    items != [] ==>
      var tag := ItemTag(items[0]);
      && tag !in used && tag != MSG_TYPE
      && LegalItem(T, defs, items[0], above, used)
      && Legal(T, defs, items[1..], above, used + {tag})
  }

  ghost predicate LegalItem(T: TagTable, defs: seq<GroupDef>, item: Item, above: Option<set<Tag>>, used: set<Tag>)
    requires T.texts != []
    decreases item
  {
    match item
    case PlainField(tag, _) => Harmless(defs, tag, above)
    case Group(def, count, instances) =>
      && OpensFirst(defs, def) && ClosesFirst(defs, def)
      && def.count != T.Invalid() && def.end != MSG_TYPE
      && instances != [] && CountFits(ParseSigned(count), |instances|)
      && forall i :: 0 <= i < |instances| ==> LegalInstance(T, defs, def, instances[i], used + {def.count})
  }

  ghost predicate LegalInstance(T: TagTable, defs: seq<GroupDef>, def: GroupDef, instance: Instance, above: set<Tag>)
    requires T.texts != []
    decreases instance
  {
    && Legal(T, defs, instance.items, Some(above), {})
    && forall k :: 0 <= k < |instance.items| ==> ItemTag(instance.items[k]) != def.end
  }

  // ----- Field lists -----

  function TagsOf(fields: seq<FieldV>): set<Tag> {
    set f | f in fields :: f.tag
  }

  lemma TagsAppend(fields: seq<FieldV>, f: FieldV)
    ensures TagsOf(fields + [f]) == TagsOf(fields) + {f.tag}
  {
    assert f in fields + [f] && forall g :: g in fields ==> g in fields + [f];
  }

  lemma {:induction false} FindLast(fields: seq<FieldV>, f: FieldV)
    requires f.tag !in TagsOf(fields)
    ensures FindField(fields, f.tag) == None
    ensures FindField(fields + [f], f.tag) == Some(|fields|)
    decreases |fields|
  {
    if fields != [] {
      assert fields[0] in fields && forall g :: g in fields[1..] ==> g in fields;
      assert (fields + [f])[1..] == fields[1..] + [f];
      FindLast(fields[1..], f);
    }
  }

  lemma NotFound(fields: seq<FieldV>, tag: Tag)
    ensures FindField(fields, tag).None? <==> tag !in TagsOf(fields)
  {
    var r := FindField(fields, tag);
    if r.Some? {
      assert fields[r.value] in fields;
    }
  }

  /** A map whose last field is a count field. */
  function Holder(before: seq<FieldV>, f: FieldV, groups: seq<MapV>): MapV {
    MapV(before + [f.(groups := groups)])
  }

  lemma AddToHolder(before: seq<FieldV>, f: FieldV, groups: seq<MapV>, child: MapV)
    requires f.tag !in TagsOf(before)
    ensures AddGroup(Holder(before, f, groups), f.tag, child) == Holder(before, f, groups + [child])
    ensures FindField(Holder(before, f, groups).fields, f.tag) == Some(|before|)
  {
    FindLast(before, f.(groups := groups));
  }

  lemma PutNew(m: MapV, t: Token)
    requires t.tag !in TagsOf(m.fields)
    ensures Put(m, t) == MapV(m.fields + [FieldV(t.tag, t.offset, t.length, [])])
  {
    NotFound(m.fields, t.tag);
  }

  lemma {:induction false} FeedConcat(step: Stepper, m: Machine, a: seq<Token>, b: seq<Token>)
    ensures FeedAll(step, m, a + b) == FeedAll(step, FeedAll(step, m, a), b)
    decreases |a|
  {
    if a == [] {
      assert a + b == b;
    } else {
      assert (a + b)[1..] == a[1..] + b;
      FeedConcat(step, step(m, a[0]), a[1..], b);
    }
  }

  lemma FeedOne(step: Stepper, m: Machine, t: Token)
    ensures FeedAll(step, m, [t]) == step(m, t)
  {
    assert [t][1..] == [];
  }

  // ----- Feeding a message -----

  /** What is above the current map: its parent holds the field on which the current map hangs. */
  ghost predicate Under(m: Machine, above: Option<set<Tag>>) {
    if m.stack == [] then above == None
    else
      var top := m.stack[|m.stack| - 1];
      top.tag in TagsOf(top.map_.fields) && above == Some(TagsOf(top.map_.fields))
  }

  lemma ParentTags(m: Machine, above: Option<set<Tag>>)
    requires m.stack != [] && Under(m, above)
    ensures TagsOf(Parent(m).fields) == above.value
  {
    var top := m.stack[|m.stack| - 1];
    NotFound(top.map_.fields, top.tag);
    var i := FindField(top.map_.fields, top.tag).value;
    var fields, fields' := top.map_.fields, Parent(m).fields;
    forall tag
      ensures tag in TagsOf(fields') <==> tag in TagsOf(fields)
    {
      if tag in TagsOf(fields) {
        var k :| 0 <= k < |fields| && fields[k].tag == tag;
        assert fields'[k] in fields' && fields'[k].tag == tag;
      }
      if tag in TagsOf(fields') {
        var k :| 0 <= k < |fields'| && fields'[k].tag == tag;
        assert fields[k] in fields && fields[k].tag == tag;
      }
    }
  }

  /** A harmless new field is stored and nothing else happens. */
  lemma FeedHarmless(T: TagTable, groups: GroupDefs, input: Bytes, m: Machine, t: Token, above: Option<set<Tag>>)
    requires T.texts != [] && Under(m, above) && Harmless(m.defs, t.tag, above)
    requires t.tag !in TagsOf(m.current.fields) && t.tag != MSG_TYPE
    ensures Feed(T, groups, input, m, t)
         == m.(current := MapV(m.current.fields + [FieldV(t.tag, t.offset, t.length, [])]))
  {
    PutNew(m.current, t);
    HarmlessMatch(m.defs, t.tag, above);
    var stored := m.(current := Put(m.current, t));
    if FirstMatch(m.defs, t.tag).Closes? && m.stack != [] {
      assert Under(stored, above);
      ParentTags(stored, above);
      NotFound(Parent(stored).fields, FirstMatch(m.defs, t.tag).def.count);
    }
  }

  /** A new count field is stored and an empty instance opened on it. */
  lemma FeedCount(T: TagTable, groups: GroupDefs, input: Bytes, m: Machine, t: Token, def: GroupDef)
    requires T.texts != [] && FirstMatch(m.defs, t.tag) == Opens(def)
    requires t.tag !in TagsOf(m.current.fields) && t.tag != MSG_TYPE
    ensures var f := FieldV(t.tag, t.offset, t.length, []);
      Feed(T, groups, input, m, t)
        == Machine(m.stack + [Frame(Holder(m.current.fields, f, []), t.tag)], EMPTY_MAP, m.defs)
  {
    PutNew(m.current, t);
  }

  /** The end tag of the group on top of the stack closes the instance: the last one announced returns to the parent,
      any other one is followed by an empty sibling. */
  lemma FeedEnd(T: TagTable, groups: GroupDefs, input: Bytes, base: seq<Frame>, defs: seq<GroupDef>, t: Token,
                def: GroupDef, before: seq<FieldV>, f: FieldV, done: seq<MapV>, fields: seq<FieldV>)
    requires T.texts != [] && FirstMatch(defs, t.tag) == Closes(def) && f.tag == def.count
    requires f.tag !in TagsOf(before) && t.tag !in TagsOf(fields) && t.tag != MSG_TYPE
    ensures var done' := done + [MapV(fields + [FieldV(t.tag, t.offset, t.length, [])])];
      var parent := Holder(before, f, done');
      Feed(T, groups, input, Machine(base + [Frame(Holder(before, f, done), f.tag)], MapV(fields), defs), t)
        == if |done'| >= Announced(T, input, f.(groups := done')) then Machine(base, parent, defs)
           else Machine(base + [Frame(parent, f.tag)], EMPTY_MAP, defs)
  {
    PutNew(MapV(fields), t);
    var child := MapV(fields + [FieldV(t.tag, t.offset, t.length, [])]);
    var stored := Machine(base + [Frame(Holder(before, f, done), f.tag)], child, defs);
    assert stored.stack[..|stored.stack| - 1] == base;
    AddToHolder(before, f, done, child);
    AddToHolder(before, f, done + [child], child);
    assert Parent(stored) == Holder(before, f, done + [child]);
  }

  /** A count field with a tag that is not in the table announces nothing: its group is left at the first end tag. */
  lemma UnknownCountEndsGroup(T: TagTable, input: Bytes, m: Machine, def: GroupDef)
    requires T.texts != [] && m.stack != [] && def.count == T.Invalid() && def.count in TagsOf(Parent(m).fields)
    ensures CloseInstance(T, input, m, def) == Popped(m)
  {
    NotFound(Parent(m).fields, def.count);
  }

  /** An end tag closes nothing at the root, nor in an instance whose enclosing map lacks the count field of its
      group. */
  lemma StrayEndIsIgnored(T: TagTable, input: Bytes, m: Machine, def: GroupDef)
    requires T.texts != [] && (m.stack == [] || def.count !in TagsOf(Parent(m).fields))
    ensures CloseInstance(T, input, m, def) == m
  {
    if m.stack != [] {
      NotFound(Parent(m).fields, def.count);
    }
  }

  // ----- The three ways in which the machine moves on a legal message -----

  function Extended(m: Machine, fields: seq<FieldV>): Machine {
    m.(current := MapV(m.current.fields + fields))
  }

  /** The machine inside an instance with these fields, which hangs on the count field f of an unfinished map. */
  function Inside(base: seq<Frame>, defs: seq<GroupDef>, before: seq<FieldV>, f: FieldV, done: seq<MapV>,
                  fields: seq<FieldV>): Machine {
    Machine(base + [Frame(Holder(before, f, done), f.tag)], MapV(fields), defs)
  }

  ghost predicate StoresHarmless(step: Stepper, m: Machine, t: Token, above: Option<set<Tag>>) {
    Under(m, above) && Harmless(m.defs, t.tag, above) && t.tag !in TagsOf(m.current.fields) && t.tag != MSG_TYPE ==>
      step(m, t) == Extended(m, [Stored(t)])
  }

  ghost predicate OpensOnCount(step: Stepper, m: Machine, t: Token) {
    FirstMatch(m.defs, t.tag).Opens? && t.tag !in TagsOf(m.current.fields) && t.tag != MSG_TYPE ==>
      step(m, t) == Inside(m.stack, m.defs, m.current.fields, Stored(t), [], [])
  }

  ghost predicate ClosesOnEnd(T: TagTable, input: Bytes, step: Stepper, base: seq<Frame>, defs: seq<GroupDef>,
                              before: seq<FieldV>, f: FieldV, done: seq<MapV>, fields: seq<FieldV>, t: Token)
    requires T.texts != []
  {
    && FirstMatch(defs, t.tag).Closes? && FirstMatch(defs, t.tag).def.count == f.tag && f.tag !in TagsOf(before)
    && t.tag !in TagsOf(fields) && t.tag != MSG_TYPE ==>
      var done' := done + [MapV(fields + [Stored(t)])];
      step(Inside(base, defs, before, f, done, fields), t)
        == if |done'| >= Announced(T, input, f) then Machine(base, Holder(before, f, done'), defs)
           else Inside(base, defs, before, f, done', [])
  }

  ghost predicate Moves(T: TagTable, input: Bytes, step: Stepper) {
    && T.texts != []
    && (forall m, t, above :: StoresHarmless(step, m, t, above))
    && (forall m, t :: OpensOnCount(step, m, t))
    && (forall base, defs, before, f, done, fields, t ::
          ClosesOnEnd(T, input, step, base, defs, before, f, done, fields, t))
  }

  lemma MachineMoves(T: TagTable, groups: GroupDefs, input: Bytes)
    requires T.texts != []
    ensures Moves(T, input, StepperOf(T, groups, input))
  {
    var step := StepperOf(T, groups, input);
    forall m, t, above
      ensures StoresHarmless(step, m, t, above)
    {
      if Under(m, above) && Harmless(m.defs, t.tag, above) && t.tag !in TagsOf(m.current.fields) && t.tag != MSG_TYPE {
        FeedHarmless(T, groups, input, m, t, above);
      }
    }
    forall m, t
      ensures OpensOnCount(step, m, t)
    {
      if FirstMatch(m.defs, t.tag).Opens? && t.tag !in TagsOf(m.current.fields) && t.tag != MSG_TYPE {
        FeedCount(T, groups, input, m, t, FirstMatch(m.defs, t.tag).def);
      }
    }
    forall base, defs, before, f, done, fields, t
      ensures ClosesOnEnd(T, input, step, base, defs, before, f, done, fields, t)
    {
      if && FirstMatch(defs, t.tag).Closes? && FirstMatch(defs, t.tag).def.count == f.tag && f.tag !in TagsOf(before)
         && t.tag !in TagsOf(fields) && t.tag != MSG_TYPE {
        FeedEnd(T, groups, input, base, defs, t, FirstMatch(defs, t.tag).def, before, f, done, fields);
      }
    }
  }

  // ----- Feeding legal items -----

  lemma ExtendedTwice(m: Machine, f: FieldV, rest: seq<FieldV>)
    ensures Extended(Extended(m, [f]), rest) == Extended(m, [f] + rest)
  {
    assert m.current.fields + [f] + rest == m.current.fields + ([f] + rest);
  }

  lemma ItemsEverywhere(T: TagTable, ok: Check, items: seq<Item>, at: nat)
    requires items != []
    ensures Everywhere(ok, T, Flatten(items), at) <==>
      && Everywhere(ok, T, FlattenItem(items[0]), at)
      && Everywhere(ok, T, Flatten(items[1..]), at + Size(T, FlattenItem(items[0])))
  {
    Parts(T, ok, FlattenItem(items[0]), Flatten(items[1..]), at);
  }

  /** Feeding these items adds to the current map exactly their fields and group instances, and leaves the machine as
      it was otherwise. */
  ghost predicate Fed(T: TagTable, step: Stepper, m: Machine, items: seq<Item>, at: nat) {
    FeedAll(step, m, TokensAt(T, Flatten(items), at)) == Extended(m, MapFields(T, items, at))
  }

  ghost predicate FedItem(T: TagTable, step: Stepper, m: Machine, item: Item, at: nat) {
    FeedAll(step, m, TokensAt(T, FlattenItem(item), at)) == Extended(m, [ItemField(T, item, at)])
  }

  /** Feeding a first item and then the rest is feeding the list. */
  lemma FeedChain(T: TagTable, step: Stepper, m: Machine, items: seq<Item>, at: nat)
    requires items != []
    requires FedItem(T, step, m, items[0], at)
    requires Fed(T, step, Extended(m, [ItemField(T, items[0], at)]), items[1..], at + Size(T, FlattenItem(items[0])))
    ensures Fed(T, step, m, items, at)
  {
    var first, rest := FlattenItem(items[0]), Flatten(items[1..]);
    var at' := at + Size(T, first);
    assert TokensAt(T, Flatten(items), at) == TokensAt(T, first, at) + TokensAt(T, rest, at') by {
      Parts(T, ReadableIn(T, []), first, rest, at);
    }
    FeedConcat(step, m, TokensAt(T, first, at), TokensAt(T, rest, at'));
    ExtendedTwice(m, ItemField(T, items[0], at), MapFields(T, items[1..], at'));
  }

  /** The machine is ready for these items, which can be read from `at` on. */
  ghost predicate Feedable(T: TagTable, input: Bytes, m: Machine, items: seq<Item>, at: nat, above: Option<set<Tag>>) {
    && T.texts != [] && AllReadable(T, input, Flatten(items), at)
    && Under(m, above) && Legal(T, m.defs, items, above, TagsOf(m.current.fields))
  }

  ghost predicate ItemFeedable(T: TagTable, input: Bytes, m: Machine, item: Item, at: nat, above: Option<set<Tag>>) {
    && T.texts != [] && AllReadable(T, input, FlattenItem(item), at)
    && Under(m, above) && ItemTag(item) !in TagsOf(m.current.fields) && ItemTag(item) != MSG_TYPE
    && LegalItem(T, m.defs, item, above, TagsOf(m.current.fields))
  }

  lemma FirstFeedable(T: TagTable, input: Bytes, m: Machine, items: seq<Item>, at: nat, above: Option<set<Tag>>)
    requires Feedable(T, input, m, items, at, above) && items != []
    ensures ItemFeedable(T, input, m, items[0], at, above)
  {
    ItemsEverywhere(T, ReadableIn(T, input), items, at);
  }

  lemma LegalRest(T: TagTable, defs: seq<GroupDef>, items: seq<Item>, above: Option<set<Tag>>, used: set<Tag>,
                  used': set<Tag>)
    requires T.texts != [] && Legal(T, defs, items, above, used) && items != [] && used' == used + {ItemTag(items[0])}
    ensures Legal(T, defs, items[1..], above, used')
  {
  }

  lemma RestFeedable(T: TagTable, input: Bytes, m: Machine, items: seq<Item>, at: nat, above: Option<set<Tag>>)
    requires Feedable(T, input, m, items, at, above) && items != []
    ensures Feedable(T, input, Extended(m, [ItemField(T, items[0], at)]), items[1..],
                     at + Size(T, FlattenItem(items[0])), above)
  {
    var m' := Extended(m, [ItemField(T, items[0], at)]);
    assert AllReadable(T, input, Flatten(items[1..]), at + Size(T, FlattenItem(items[0]))) by {
      ItemsEverywhere(T, ReadableIn(T, input), items, at);
    }
    assert Legal(T, m.defs, items[1..], above, TagsOf(m'.current.fields)) by {
      TagsAppend(m.current.fields, ItemField(T, items[0], at));
      LegalRest(T, m.defs, items, above, TagsOf(m.current.fields), TagsOf(m'.current.fields));
    }
  }

  /** Feeding the fields of legal items adds to the current map exactly the fields and instances of these items. */
  lemma {:induction false} FeedItems(T: TagTable, input: Bytes, step: Stepper, m: Machine, items: seq<Item>,
                                     at: nat, above: Option<set<Tag>>)
    requires Moves(T, input, step) && Feedable(T, input, m, items, at, above)
    ensures Fed(T, step, m, items, at)
    decreases items, 1
  {
    if items == [] {
      assert m.current.fields + [] == m.current.fields;
    } else {
      FeedFirst(T, input, step, m, items, at, above);
      FeedItems(T, input, step, Extended(m, [ItemField(T, items[0], at)]), items[1..],
                at + Size(T, FlattenItem(items[0])), above);
      FeedChain(T, step, m, items, at);
    }
  }

  lemma {:induction false} FeedFirst(T: TagTable, input: Bytes, step: Stepper, m: Machine, items: seq<Item>,
                                     at: nat, above: Option<set<Tag>>)
    requires Moves(T, input, step) && Feedable(T, input, m, items, at, above) && items != []
    ensures FedItem(T, step, m, items[0], at)
    ensures Feedable(T, input, Extended(m, [ItemField(T, items[0], at)]), items[1..],
                     at + Size(T, FlattenItem(items[0])), above)
    decreases items, 0
  {
    FirstFeedable(T, input, m, items, at, above);
    RestFeedable(T, input, m, items, at, above);
    FeedItem(T, input, step, m, items[0], at, above);
  }

  lemma {:induction false} FeedItem(T: TagTable, input: Bytes, step: Stepper, m: Machine, item: Item,
                                    at: nat, above: Option<set<Tag>>)
    requires Moves(T, input, step) && ItemFeedable(T, input, m, item, at, above)
    ensures FedItem(T, step, m, item, at)
    decreases item, 2
  {
    if item.PlainField? {
      FeedPlain(T, input, step, m, item.tag, item.value, at, above);
    } else {
      FeedGroup(T, input, step, m, item.def, item.count, item.instances, at, above);
    }
  }

  lemma {:induction false} FeedGroup(T: TagTable, input: Bytes, step: Stepper, m: Machine, def: GroupDef, count: Bytes,
                                     instances: seq<Instance>, at: nat, above: Option<set<Tag>>)
    requires Moves(T, input, step) && ItemFeedable(T, input, m, Group(def, count, instances), at, above)
    ensures FedItem(T, step, m, Group(def, count, instances), at)
    decreases Group(def, count, instances), 1
  {
    GroupIsFeedable(T, input, step, m, def, count, instances, at, above);
    FeedOpened(T, input, step, m, def, count, instances, at);
  }

  lemma {:induction false} FeedOpened(T: TagTable, input: Bytes, step: Stepper, m: Machine, def: GroupDef, count: Bytes,
                                      instances: seq<Instance>, at: nat)
    requires Moves(T, input, step)
    requires var t := TokenAt(T, FieldText(def.count, count), at);
      && step(m, t) == Inside(m.stack, m.defs, m.current.fields, Stored(t), [], [])
      && GroupFeedable(T, input, m.defs, def, m.current.fields, Stored(t), [], instances, t.End() + 1)
    ensures FedItem(T, step, m, Group(def, count, instances), at)
    decreases Group(def, count, instances), 0
  {
    var t := TokenAt(T, FieldText(def.count, count), at);
    FeedInstances(T, input, step, m.stack, m.defs, def, m.current.fields, Stored(t), [], instances, t.End() + 1);
    GroupChain(T, step, m, def, count, instances, at);
  }

  lemma FeedPlain(T: TagTable, input: Bytes, step: Stepper, m: Machine, tag: Tag, value: Bytes, at: nat,
                  above: Option<set<Tag>>)
    requires Moves(T, input, step) && ItemFeedable(T, input, m, PlainField(tag, value), at, above)
    ensures FedItem(T, step, m, PlainField(tag, value), at)
  {
    var t := TokenAt(T, FieldText(tag, value), at);
    Single(T, ReadableIn(T, input), FieldText(tag, value), at);
    assert StoresHarmless(step, m, t, above);
    FeedOne(step, m, t);
  }

  /** The count field of a group opens an instance, in which the machine is ready for the instances of the group. */
  lemma GroupIsFeedable(T: TagTable, input: Bytes, step: Stepper, m: Machine, def: GroupDef, count: Bytes,
                        instances: seq<Instance>, at: nat, above: Option<set<Tag>>)
    requires Moves(T, input, step) && ItemFeedable(T, input, m, Group(def, count, instances), at, above)
    ensures var t := TokenAt(T, FieldText(def.count, count), at);
      && step(m, t) == Inside(m.stack, m.defs, m.current.fields, Stored(t), [], [])
      && GroupFeedable(T, input, m.defs, def, m.current.fields, Stored(t), [], instances, t.End() + 1)
  {
    GroupSplit(T, input, def, count, instances, at);
    FirstIsMatched(m.defs, def);
    assert OpensOnCount(step, m, TokenAt(T, FieldText(def.count, count), at));
  }

  lemma FeedFirstToken(step: Stepper, m: Machine, t: Token, rest: seq<Token>)
    ensures FeedAll(step, m, [t] + rest) == FeedAll(step, step(m, t), rest)
  {
    assert ([t] + rest)[1..] == rest;
  }

  lemma GroupField(T: TagTable, m: Machine, def: GroupDef, count: Bytes, instances: seq<Instance>, at: nat)
    ensures var t := TokenAt(T, FieldText(def.count, count), at);
      Extended(m, [ItemField(T, Group(def, count, instances), at)])
        == Machine(m.stack, Holder(m.current.fields, Stored(t), [] + InstanceMaps(T, def, instances, t.End() + 1)),
                   m.defs)
  {
    var t := TokenAt(T, FieldText(def.count, count), at);
    assert [] + InstanceMaps(T, def, instances, t.End() + 1) == InstanceMaps(T, def, instances, t.End() + 1);
  }

  /** Feeding a count field and then the instances is feeding the group. */
  lemma GroupChain(T: TagTable, step: Stepper, m: Machine, def: GroupDef, count: Bytes, instances: seq<Instance>,
                   at: nat)
    requires var t := TokenAt(T, FieldText(def.count, count), at);
      FeedAll(step, step(m, t), TokensAt(T, FlattenInstances(def, instances), t.End() + 1))
        == Machine(m.stack, Holder(m.current.fields, Stored(t), [] + InstanceMaps(T, def, instances, t.End() + 1)),
                   m.defs)
    ensures FedItem(T, step, m, Group(def, count, instances), at)
  {
    var t := TokenAt(T, FieldText(def.count, count), at);
    GroupSplit(T, [], def, count, instances, at);
    FeedFirstToken(step, m, t, TokensAt(T, FlattenInstances(def, instances), t.End() + 1));
    GroupField(T, m, def, count, instances, at);
  }

  /** A group splits into its count field and its instances. */
  lemma GroupSplit(T: TagTable, input: Bytes, def: GroupDef, count: Bytes, instances: seq<Instance>, at: nat)
    ensures var fs := FlattenItem(Group(def, count, instances));
      var t := TokenAt(T, FieldText(def.count, count), at);
      var rest := FlattenInstances(def, instances);
      && TokensAt(T, fs, at) == [t] + TokensAt(T, rest, t.End() + 1)
      && (AllReadable(T, input, fs, at) ==>
            AllReadable(T, input, rest, t.End() + 1) && t.End() < |input| && ValueOf(input, t) == count)
  {
    Front(T, ReadableIn(T, input), FieldText(def.count, count), FlattenInstances(def, instances), at);
  }

  /** The machine, inside an empty instance on the count field f behind `before` and after the instances `done`, is
      ready for these instances, which can be read from `at` on and are as many as f announces. */
  ghost predicate GroupFeedable(T: TagTable, input: Bytes, defs: seq<GroupDef>, def: GroupDef, before: seq<FieldV>,
                                f: FieldV, done: seq<MapV>, instances: seq<Instance>, at: nat) {
    && T.texts != [] && instances != [] && AllReadable(T, input, FlattenInstances(def, instances), at)
    && (Announced(T, input, f) == |done| + |instances|
        || (done == [] && |instances| == 1 && Announced(T, input, f) <= 1))
    && GroupLegal(T, defs, def, before, f)
    && forall i :: 0 <= i < |instances| ==> LegalInstance(T, defs, def, instances[i], TagsOf(before) + {def.count})
  }

  ghost predicate GroupLegal(T: TagTable, defs: seq<GroupDef>, def: GroupDef, before: seq<FieldV>, f: FieldV) {
    && f.tag == def.count && f.tag !in TagsOf(before)
    && FirstMatch(defs, def.end) == Closes(def) && def.end != MSG_TYPE
  }

  lemma RestOfGroupFeedable(T: TagTable, input: Bytes, defs: seq<GroupDef>, def: GroupDef, before: seq<FieldV>,
                            f: FieldV, done: seq<MapV>, instances: seq<Instance>, at: nat)
    requires GroupFeedable(T, input, defs, def, before, f, done, instances, at) && |instances| > 1
    ensures GroupFeedable(T, input, defs, def, before, f, done + [InstanceMap(T, def, instances[0], at)],
                          instances[1..], EndToken(T, def, instances[0], at).End() + 1)
  {
    InstancesEverywhere(T, ReadableIn(T, input), def, instances, at);
  }

  /** Feeding the instances of a group, the machine standing in an empty instance: it ends on the map that holds the
      group, with all instances in order. */
  lemma {:induction false} FeedInstances(T: TagTable, input: Bytes, step: Stepper, base: seq<Frame>,
                                         defs: seq<GroupDef>,
                                         def: GroupDef, before: seq<FieldV>, f: FieldV, done: seq<MapV>,
                                         instances: seq<Instance>, at: nat)
    requires Moves(T, input, step) && GroupFeedable(T, input, defs, def, before, f, done, instances, at)
    ensures FeedAll(step, Inside(base, defs, before, f, done, []), TokensAt(T, FlattenInstances(def, instances), at))
         == Machine(base, Holder(before, f, done + InstanceMaps(T, def, instances, at)), defs)
    decreases instances
  {
    var t, done' := EndToken(T, def, instances[0], at), done + [InstanceMap(T, def, instances[0], at)];
    assert AllReadable(T, input, Flatten(instances[0].items), at) by {
      InstancesEverywhere(T, ReadableIn(T, input), def, instances, at);
    }
    FeedInstance(T, input, step, base, defs, def, before, f, done, instances[0], at);
    if |instances| > 1 {
      RestOfGroupFeedable(T, input, defs, def, before, f, done, instances, at);
      FeedInstances(T, input, step, base, defs, def, before, f, done', instances[1..], t.End() + 1);
    }
    InstanceChain(T, step, base, defs, def, before, f, done, instances, at);
  }

  /** Feeding a first instance and then the others is feeding the instances. */
  lemma InstanceChain(T: TagTable, step: Stepper, base: seq<Frame>, defs: seq<GroupDef>, def: GroupDef,
                      before: seq<FieldV>, f: FieldV, done: seq<MapV>, instances: seq<Instance>, at: nat)
    requires instances != []
    requires var t, done' := EndToken(T, def, instances[0], at), done + [InstanceMap(T, def, instances[0], at)];
      var next := if |instances| == 1 then Machine(base, Holder(before, f, done'), defs)
                  else Inside(base, defs, before, f, done', []);
      && FeedAll(step, Inside(base, defs, before, f, done, []), TokensAt(T, Flatten(instances[0].items), at) + [t])
           == next
      && (|instances| > 1 ==>
            FeedAll(step, next, TokensAt(T, FlattenInstances(def, instances[1..]), t.End() + 1))
              == Machine(base, Holder(before, f, done' + InstanceMaps(T, def, instances[1..], t.End() + 1)), defs))
    ensures FeedAll(step, Inside(base, defs, before, f, done, []), TokensAt(T, FlattenInstances(def, instances), at))
         == Machine(base, Holder(before, f, done + InstanceMaps(T, def, instances, at)), defs)
  {
    InstancesSplit(T, def, instances, at);
    var t, map_ := EndToken(T, def, instances[0], at), InstanceMap(T, def, instances[0], at);
    var rest := FlattenInstances(def, instances[1..]);
    FeedConcat(step, Inside(base, defs, before, f, done, []), TokensAt(T, Flatten(instances[0].items), at) + [t],
               TokensAt(T, rest, t.End() + 1));
    var maps := InstanceMaps(T, def, instances[1..], t.End() + 1);
    Associates(done, [map_], maps);
    if |instances| == 1 {
      assert rest == [] && maps == [] && done + [map_] + [] == done + [map_];
    }
  }

  function EndToken(T: TagTable, def: GroupDef, instance: Instance, at: nat): Token {
    TokenAt(T, FieldText(def.end, instance.last), at + Size(T, Flatten(instance.items)))
  }

  function InstanceMap(T: TagTable, def: GroupDef, instance: Instance, at: nat): MapV {
    MapV(MapFields(T, instance.items, at) + [Stored(EndToken(T, def, instance, at))])
  }

  /** What the end field of an instance leads to: the parent after the last instance announced, otherwise a sibling. */
  function AfterEnd(T: TagTable, input: Bytes, base: seq<Frame>, defs: seq<GroupDef>, before: seq<FieldV>, f: FieldV,
                    done: seq<MapV>): Machine
    requires T.texts != []
  {
    if |done| >= Announced(T, input, f) then Machine(base, Holder(before, f, done), defs)
    else Inside(base, defs, before, f, done, [])
  }

  lemma InsideFeedable(T: TagTable, input: Bytes, base: seq<Frame>, defs: seq<GroupDef>, def: GroupDef,
                       before: seq<FieldV>, f: FieldV, done: seq<MapV>, instance: Instance, at: nat)
    requires T.texts != [] && AllReadable(T, input, Flatten(instance.items), at) && f.tag == def.count
    requires LegalInstance(T, defs, def, instance, TagsOf(before) + {def.count})
    ensures Feedable(T, input, Inside(base, defs, before, f, done, []), instance.items, at,
                     Some(TagsOf(before) + {def.count}))
  {
    HolderTags(before, f, done);
    assert TagsOf([]) == {};
  }

  lemma EndMoves(T: TagTable, input: Bytes, step: Stepper, base: seq<Frame>, defs: seq<GroupDef>, def: GroupDef,
                 before: seq<FieldV>, f: FieldV, done: seq<MapV>, instance: Instance, at: nat)
    requires Moves(T, input, step) && GroupLegal(T, defs, def, before, f)
    requires LegalInstance(T, defs, def, instance, TagsOf(before) + {def.count})
    ensures step(Inside(base, defs, before, f, done, MapFields(T, instance.items, at)), EndToken(T, def, instance, at))
         == AfterEnd(T, input, base, defs, before, f, done + [InstanceMap(T, def, instance, at)])
  {
    var fields, t := MapFields(T, instance.items, at), EndToken(T, def, instance, at);
    MapFieldTags(T, instance.items, at, def.end);
    assert ClosesOnEnd(T, input, step, base, defs, before, f, done, fields, t);
  }

  /** One instance: its items, then the end field that closes it. */
  lemma {:induction false} FeedInstance(T: TagTable, input: Bytes, step: Stepper, base: seq<Frame>, defs: seq<GroupDef>,
                                        def: GroupDef, before: seq<FieldV>, f: FieldV, done: seq<MapV>,
                                        instance: Instance, at: nat)
    requires Moves(T, input, step) && AllReadable(T, input, Flatten(instance.items), at)
    requires GroupLegal(T, defs, def, before, f)
    requires LegalInstance(T, defs, def, instance, TagsOf(before) + {def.count})
    ensures FeedAll(step, Inside(base, defs, before, f, done, []), TokensAt(T, Flatten(instance.items), at))
         == Inside(base, defs, before, f, done, MapFields(T, instance.items, at))
    ensures FeedAll(step, Inside(base, defs, before, f, done, []),
                    TokensAt(T, Flatten(instance.items), at) + [EndToken(T, def, instance, at)])
         == AfterEnd(T, input, base, defs, before, f, done + [InstanceMap(T, def, instance, at)])
    decreases instance
  {
    var m, fields := Inside(base, defs, before, f, done, []), MapFields(T, instance.items, at);
    InsideFeedable(T, input, base, defs, def, before, f, done, instance, at);
    FeedItems(T, input, step, m, instance.items, at, Some(TagsOf(before) + {def.count}));
    assert [] + fields == fields;
    assert Extended(m, fields) == Inside(base, defs, before, f, done, fields);
    EndMoves(T, input, step, base, defs, def, before, f, done, instance, at);
    FeedOne(step, Extended(m, fields), EndToken(T, def, instance, at));
    FeedConcat(step, m, TokensAt(T, Flatten(instance.items), at), [EndToken(T, def, instance, at)]);
  }

  /** The instances of a group split into the items of the first, its end field and the other instances. */
  lemma InstancesSplit(T: TagTable, def: GroupDef, instances: seq<Instance>, at: nat)
    requires instances != []
    ensures var t := EndToken(T, def, instances[0], at);
      && TokensAt(T, FlattenInstances(def, instances), at)
           == TokensAt(T, Flatten(instances[0].items), at) + [t]
              + TokensAt(T, FlattenInstances(def, instances[1..]), t.End() + 1)
      && InstanceMaps(T, def, instances, at)
           == [InstanceMap(T, def, instances[0], at)] + InstanceMaps(T, def, instances[1..], t.End() + 1)
  {
    Middle(T, ReadableIn(T, []), Flatten(instances[0].items), FieldText(def.end, instances[0].last),
           FlattenInstances(def, instances[1..]), at);
  }

  /** What holds of all fields of a group's instances holds of those of the first, of its end field, and of those of the
      others. */
  lemma InstancesEverywhere(T: TagTable, ok: Check, def: GroupDef, instances: seq<Instance>, at: nat)
    requires instances != [] && Everywhere(ok, T, FlattenInstances(def, instances), at)
    ensures Everywhere(ok, T, Flatten(instances[0].items), at)
    ensures ok(FieldText(def.end, instances[0].last), at + Size(T, Flatten(instances[0].items)))
    ensures Everywhere(ok, T, FlattenInstances(def, instances[1..]), EndToken(T, def, instances[0], at).End() + 1)
  {
    var inner, last, others := Flatten(instances[0].items), FieldText(def.end, instances[0].last),
                               FlattenInstances(def, instances[1..]);
    assert FlattenInstances(def, instances) == inner + [last] + others;
    MiddleEverywhere(T, ok, inner, last, others, at);
  }

  lemma HolderTags(before: seq<FieldV>, f: FieldV, groups: seq<MapV>)
    ensures TagsOf(Holder(before, f, groups).fields) == TagsOf(before) + {f.tag}
  {
    TagsAppend(before, f.(groups := groups));
  }

  /** The tags of a list of items are the tags of its fields. */
  lemma {:induction false} MapFieldTags(T: TagTable, items: seq<Item>, at: nat, tag: Tag)
    requires forall k :: 0 <= k < |items| ==> ItemTag(items[k]) != tag
    ensures tag !in TagsOf(MapFields(T, items, at))
    decreases items
  {
    if items != [] {
      MapFieldTags(T, items[1..], at + Size(T, FlattenItem(items[0])), tag);
    }
  }
}
