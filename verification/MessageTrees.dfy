/** The round trip of whole messages with nested repeating groups: tree, fields, bytes, and back (core/Builder.hpp,
    core/Parser.cpp:14-128, and the getters of core/FieldMap.hpp:71-186). */
module MessageTrees {
  import opened Orders
  import opened FixBytes
  import opened FixTags
  import opened Scanner
  import opened Encoding
  import opened Sequences
  import opened GroupTree
  import opened RoundTrip
  import B = Builder

  // ----- Reading a parsed tree -----

  /** The bytes at an offset, with a length. */
  type Source = (nat, nat) -> Bytes

  function SourceOf(input: Bytes): Source {
    (offset: nat, length: nat) => if offset + length <= |input| then input[offset..offset + length] else []
  }

  /** The message that a parsed tree stands for: a field with group instances is a group, whose end tag is that of the
      last field of an instance. */
  function ReadFields(get: Source, fields: seq<FieldV>): seq<Item>
    decreases fields
  {
    if fields == [] then [] else [ReadField(get, fields[0])] + ReadFields(get, fields[1..])
  }

  function ReadField(get: Source, f: FieldV): Item
    decreases f
  {
    if f.groups == [] then PlainField(f.tag, get(f.offset, f.length))
    else Group(GroupDef(f.tag, LastTag(f.groups[0])), get(f.offset, f.length), ReadInstances(get, f.groups))
  }

  function ReadInstances(get: Source, maps: seq<MapV>): seq<Instance>
    decreases maps
  {
    if maps == [] then [] else [ReadInstance(get, maps[0])] + ReadInstances(get, maps[1..])
  }

  function ReadInstance(get: Source, m: MapV): Instance
    decreases m
  {
    if m.fields == [] then Instance([], [])
    else
      var last := m.fields[|m.fields| - 1];
      Instance(ReadFields(get, m.fields[..|m.fields| - 1]), get(last.offset, last.length))
  }

  function LastTag(m: MapV): Tag {
    if m.fields == [] then 0 else m.fields[|m.fields| - 1].tag
  }

  /** Every group has an instance. */
  ghost predicate NoEmptyGroup(items: seq<Item>)
    decreases items
  {
    items != [] ==> HasInstances(items[0]) && NoEmptyGroup(items[1..])
  }

  ghost predicate HasInstances(item: Item)
    decreases item
  {
    item.Group? ==>
      && item.instances != []
      && forall i :: 0 <= i < |item.instances| ==> NoEmptyGroup(item.instances[i].items)
  }

  lemma {:induction false} LegalHasInstances(T: TagTable, defs: seq<GroupDef>, items: seq<Item>,
                                             above: Option<set<Tag>>, used: set<Tag>)
    requires T.texts != [] && Legal(T, defs, items, above, used)
    ensures NoEmptyGroup(items)
    decreases items
  {
    if items != [] {
      LegalItemHasInstances(T, defs, items[0], above, used);
      LegalHasInstances(T, defs, items[1..], above, used + {ItemTag(items[0])});
    }
  }

  lemma {:induction false} LegalItemHasInstances(T: TagTable, defs: seq<GroupDef>, item: Item, above: Option<set<Tag>>,
                                                 used: set<Tag>)
    requires T.texts != [] && LegalItem(T, defs, item, above, used)
    ensures HasInstances(item)
    decreases item
  {
    if item.Group? {
      forall i | 0 <= i < |item.instances|
        ensures NoEmptyGroup(item.instances[i].items)
      {
        LegalHasInstances(T, defs, item.instances[i].items, Some(used + {item.def.count}), {});
      }
    }
  }

  /** Where a field is as it should be, its value is found. */
  ghost predicate Gives(get: Source, ok: Check, T: TagTable) {
    forall f: FieldText, at: nat :: GivesValue(get, ok, T, f, at)
  }

  ghost predicate GivesValue(get: Source, ok: Check, T: TagTable, f: FieldText, at: nat) {
    ok(f, at) ==> get(TokenAt(T, f, at).offset, |f.value|) == f.value
  }

  /** The tree that a message stands for reads as the message. */
  lemma {:induction false} TreeReads(T: TagTable, get: Source, ok: Check, items: seq<Item>, at: nat)
    requires Gives(get, ok, T) && Everywhere(ok, T, Flatten(items), at) && NoEmptyGroup(items)
    ensures ReadFields(get, MapFields(T, items, at)) == items
    decreases items
  {
    if items != [] {
      var first, rest := ItemField(T, items[0], at), MapFields(T, items[1..], at + Size(T, FlattenItem(items[0])));
      ItemsEverywhere(T, ok, items, at);
      ItemReads(T, get, ok, items[0], at);
      TreeReads(T, get, ok, items[1..], at + Size(T, FlattenItem(items[0])));
      assert ([first] + rest)[1..] == rest;
    }
  }

  lemma FieldReads(get: Source, f: FieldV, def: GroupDef, count: Bytes, instances: seq<Instance>)
    requires f.tag == def.count && get(f.offset, f.length) == count && f.groups != []
    requires ReadInstances(get, f.groups) == instances && LastTag(f.groups[0]) == def.end
    ensures ReadField(get, f) == Group(def, count, instances)
  {
  }

  lemma {:induction false} ItemReads(T: TagTable, get: Source, ok: Check, item: Item, at: nat)
    requires Gives(get, ok, T) && Everywhere(ok, T, FlattenItem(item), at) && HasInstances(item)
    ensures ReadField(get, ItemField(T, item, at)) == item
    decreases item
  {
    match item {
      case PlainField(tag, value) =>
        Single(T, ok, FieldText(tag, value), at);
        assert GivesValue(get, ok, T, FieldText(tag, value), at);
      case Group(def, count, instances) =>
        var f := FieldText(def.count, count);
        var t := TokenAt(T, f, at);
        Front(T, ok, f, FlattenInstances(def, instances), at);
        assert GivesValue(get, ok, T, f, at);
        InstancesRead(T, get, ok, def, instances, t.End() + 1);
        FieldReads(get, Stored(t).(groups := InstanceMaps(T, def, instances, t.End() + 1)), def, count, instances);
    }
  }

  lemma {:induction false} InstancesRead(T: TagTable, get: Source, ok: Check, def: GroupDef, instances: seq<Instance>,
                                         at: nat)
    requires Gives(get, ok, T) && Everywhere(ok, T, FlattenInstances(def, instances), at)
    requires forall i :: 0 <= i < |instances| ==> NoEmptyGroup(instances[i].items)
    ensures ReadInstances(get, InstanceMaps(T, def, instances, at)) == instances
    ensures instances != [] ==> LastTag(InstanceMaps(T, def, instances, at)[0]) == def.end
    decreases instances
  {
    if instances != [] {
      var t, first := EndToken(T, def, instances[0], at), InstanceMap(T, def, instances[0], at);
      var maps := InstanceMaps(T, def, instances[1..], t.End() + 1);
      assert InstanceMaps(T, def, instances, at) == [first] + maps by {
        InstancesSplit(T, def, instances, at);
      }
      InstancesEverywhere(T, ok, def, instances, at);
      assert ReadInstance(get, first) == instances[0] && LastTag(first) == def.end by {
        InstanceReads(T, get, ok, def, instances[0], at);
      }
      assert ReadInstances(get, maps) == instances[1..] by {
        InstancesRead(T, get, ok, def, instances[1..], t.End() + 1);
      }
      InstancesCons(get, InstanceMaps(T, def, instances, at), first, maps, instances);
    }
  }

  lemma InstancesCons(get: Source, all: seq<MapV>, first: MapV, maps: seq<MapV>, instances: seq<Instance>)
    requires all == [first] + maps && instances != []
    requires ReadInstance(get, first) == instances[0] && ReadInstances(get, maps) == instances[1..]
    ensures ReadInstances(get, all) == instances
  {
    assert all[1..] == maps;
  }

  lemma {:induction false} InstanceReads(T: TagTable, get: Source, ok: Check, def: GroupDef, instance: Instance,
                                         at: nat)
    requires Gives(get, ok, T) && Everywhere(ok, T, Flatten(instance.items), at) && NoEmptyGroup(instance.items)
    requires ok(FieldText(def.end, instance.last), at + Size(T, Flatten(instance.items)))
    ensures ReadInstance(get, InstanceMap(T, def, instance, at)) == instance
    ensures LastTag(InstanceMap(T, def, instance, at)) == def.end
    decreases instance
  {
    TreeReads(T, get, ok, instance.items, at);
    assert GivesValue(get, ok, T, FieldText(def.end, instance.last), at + Size(T, Flatten(instance.items)));
    var fields := InstanceMap(T, def, instance, at).fields;
    assert fields[..|fields| - 1] == MapFields(T, instance.items, at);
  }

  lemma ReadableGives(T: TagTable, input: Bytes)
    ensures Gives(SourceOf(input), ReadableIn(T, input), T)
  {
    forall f: FieldText, at: nat
      ensures GivesValue(SourceOf(input), ReadableIn(T, input), T, f, at)
    {
    }
  }

  // ----- Messages -----

  /** The fields in front of MsgType, its value, and what follows it; only there may groups occur, since MsgType selects
      their definitions. */
  datatype Message = Message(front: seq<Item>, msgType: Bytes, body: seq<Item>) {
    function Items(): seq<Item> {
      front + [PlainField(MSG_TYPE, msgType)] + body
    }
  }

  function ItemTags(items: seq<Item>): set<Tag> {
    if items == [] then {} else {ItemTag(items[0])} + ItemTags(items[1..])
  }

  /** Tags are distinct in each map, groups are over the definitions registered for the type of the message, announce
      their number of instances, at least one, and each instance is closed by the end tag, used nowhere else in it. */
  ghost predicate LegalMessage(T: TagTable, groups: GroupDefs, m: Message)
    requires T.texts != []
  {
    LegalUnder(T, if m.msgType in groups then groups[m.msgType] else [], m)
  }

  ghost predicate LegalUnder(T: TagTable, defs: seq<GroupDef>, m: Message)
    requires T.texts != []
  {
    && Legal(T, [], m.front, None, {BEGIN_STRING, BODY_LENGTH}) && NotCounted(defs, MSG_TYPE)
    && Legal(T, defs, m.body, None, {BEGIN_STRING, BODY_LENGTH} + ItemTags(m.front) + {MSG_TYPE})
  }

  /** No group is opened at this tag. */
  ghost predicate NotCounted(defs: seq<GroupDef>, tag: Tag) {
    forall k: nat :: Concerns(defs, tag, k) ==> defs[k].count != tag
  }

  lemma NotCountedMatch(defs: seq<GroupDef>, tag: Tag)
    requires NotCounted(defs, tag)
    ensures !FirstMatch(defs, tag).Opens?
  {
    if !FirstMatch(defs, tag).NoMatch? {
      var k := MatchIsAmong(defs, tag);
    }
  }

  /** These are the definitions registered for this type; none if the type is not registered. */
  ghost predicate Selects(groups: GroupDefs, msgType: Bytes, defs: seq<GroupDef>) {
    if msgType in groups then defs == groups[msgType] else defs == []
  }

  lemma {:induction false} FlattenConcat(a: seq<Item>, b: seq<Item>)
    ensures Flatten(a + b) == Flatten(a) + Flatten(b)
    decreases |a|
  {
    if a == [] {
      assert a + b == b;
    } else {
      assert (a + b)[1..] == a[1..] + b;
      FlattenConcat(a[1..], b);
      Associates(FlattenItem(a[0]), Flatten(a[1..]), Flatten(b));
    }
  }

  lemma {:induction false} MapFieldsConcat(T: TagTable, a: seq<Item>, b: seq<Item>, at: nat)
    ensures MapFields(T, a + b, at) == MapFields(T, a, at) + MapFields(T, b, at + Size(T, Flatten(a)))
    decreases |a|
  {
    if a == [] {
      assert a + b == b;
    } else {
      assert (a + b)[1..] == a[1..] + b;
      var at' := at + Size(T, FlattenItem(a[0]));
      MapFieldsConcat(T, a[1..], b, at');
      EncodeConcat(T, FlattenItem(a[0]), Flatten(a[1..]));
      Associates([ItemField(T, a[0], at)], MapFields(T, a[1..], at'), MapFields(T, b, at' + Size(T, Flatten(a[1..]))));
    }
  }

  lemma {:induction false} NoEmptyGroupConcat(a: seq<Item>, b: seq<Item>)
    requires NoEmptyGroup(a) && NoEmptyGroup(b)
    ensures NoEmptyGroup(a + b)
    decreases |a|
  {
    if a == [] {
      assert a + b == b;
    } else {
      assert (a + b)[1..] == a[1..] + b;
      NoEmptyGroupConcat(a[1..], b);
    }
  }

  lemma {:induction false} FieldTags(T: TagTable, items: seq<Item>, at: nat)
    ensures TagsOf(MapFields(T, items, at)) == ItemTags(items)
    decreases |items|
  {
    if items != [] {
      var at' := at + Size(T, FlattenItem(items[0]));
      FieldTags(T, items[1..], at');
      var f, rest := ItemField(T, items[0], at), MapFields(T, items[1..], at');
      assert f in [f] + rest && forall g :: g in [f] + rest <==> g == f || g in rest;
    }
  }

  /** The items of a built message, with those of its header. */
  function HeaderItems(T: TagTable, items: seq<Item>): seq<Item> {
    [PlainField(BEGIN_STRING, FIX_5_0), PlainField(BODY_LENGTH, Padded(Size(T, Flatten(items)), B.BODY_LEN_WIDTH))]
  }

  lemma HeaderFlattens(T: TagTable, items: seq<Item>)
    ensures Flatten(HeaderItems(T, items) + items) == AllFields(T, Flatten(items))
    ensures Flatten(HeaderItems(T, items)) == HeaderFields(Size(T, Flatten(items)))
  {
    var h := HeaderItems(T, items);
    assert h[1..][1..] == [];
    assert Flatten(h[1..]) == FlattenItem(h[1]) + [];
    FlattenConcat(h, items);
  }

  /** At MsgType the definitions for the type of the message are looked up. */
  lemma FeedMsgType(T: TagTable, groups: GroupDefs, input: Bytes, m: Machine, t: Token)
    requires T.texts != [] && m.stack == [] && t.tag == MSG_TYPE && t.End() <= |input|
    requires MSG_TYPE !in TagsOf(m.current.fields) && !FirstMatch(DefsFor(groups, ValueOf(input, t)), MSG_TYPE).Opens?
    ensures Feed(T, groups, input, m, t)
         == Machine([], MapV(m.current.fields + [Stored(t)]), DefsFor(groups, ValueOf(input, t)))
  {
    PutNew(m.current, t);
  }

  // ----- The round trip -----

  lemma ItemsFed(T: TagTable, groups: GroupDefs, input: Bytes, m: Machine, items: seq<Item>, at: nat,
                 above: Option<set<Tag>>)
    requires Feedable(T, input, m, items, at, above)
    ensures Fed(T, StepperOf(T, groups, input), m, items, at)
  {
    MachineMoves(T, groups, input);
    FeedItems(T, input, StepperOf(T, groups, input), m, items, at, above);
  }

  /** The parser's machine after the fields in front of MsgType, */
  lemma FrontFed(T: TagTable, groups: GroupDefs, input: Bytes, front: seq<Item>)
    requires T.texts != [] && AllReadable(T, input, Flatten(front), 0) && Legal(T, [], front, None, {})
    ensures FeedAll(StepperOf(T, groups, input), START, TokensAt(T, Flatten(front), 0)) == BehindFront(T, front)
  {
    assert TagsOf([]) == {};
    ItemsFed(T, groups, input, START, front, 0, None);
    assert [] + MapFields(T, front, 0) == MapFields(T, front, 0);
  }

  function BehindFront(T: TagTable, front: seq<Item>): Machine {
    Machine([], MapV(MapFields(T, front, 0)), [])
  }

  /** and after MsgType itself. */
  lemma MsgTypeFed(T: TagTable, groups: GroupDefs, input: Bytes, front: seq<Item>, msgType: Bytes, defs: seq<GroupDef>)
    requires T.texts != [] && Readable(T, input, FieldText(MSG_TYPE, msgType), Size(T, Flatten(front)))
    requires Legal(T, [], front, None, {}) && NotCounted(defs, MSG_TYPE) && Selects(groups, msgType, defs)
    ensures var t := MsgTypeToken(T, front, msgType);
      StepperOf(T, groups, input)(BehindFront(T, front), t)
        == Machine([], MapV(MapFields(T, front, 0) + [Stored(t)]), defs)
  {
    NotCountedMatch(defs, MSG_TYPE);
    LegalTags(T, [], front, None, {});
    FieldTags(T, front, 0);
    FeedMsgType(T, groups, input, BehindFront(T, front), MsgTypeToken(T, front, msgType));
  }

  function MsgTypeToken(T: TagTable, front: seq<Item>, msgType: Bytes): Token {
    TokenAt(T, FieldText(MSG_TYPE, msgType), Size(T, Flatten(front)))
  }

  lemma FrontFields(T: TagTable, front: seq<Item>, msgType: Bytes)
    ensures MapFields(T, front + [PlainField(MSG_TYPE, msgType)], 0)
         == MapFields(T, front, 0) + [Stored(MsgTypeToken(T, front, msgType))]
    ensures Flatten(front + [PlainField(MSG_TYPE, msgType)]) == Flatten(front) + [FieldText(MSG_TYPE, msgType)]
    ensures Size(T, Flatten(front + [PlainField(MSG_TYPE, msgType)])) == MsgTypeToken(T, front, msgType).End() + 1
  {
    var item, at := PlainField(MSG_TYPE, msgType), Size(T, Flatten(front));
    MapFieldsConcat(T, front, [item], 0);
    FlattenConcat(front, [item]);
    assert [item][1..] == [] && FlattenItem(item) + [] == FlattenItem(item);
    assert MapFields(T, [item], at) == [ItemField(T, item, at)] + [];
    EncodeConcat(T, Flatten(front), [FieldText(MSG_TYPE, msgType)]);
    SizeOfOne(T, FieldText(MSG_TYPE, msgType));
  }

  lemma SizeOfOne(T: TagTable, f: FieldText)
    ensures Size(T, [f]) == |Encode(T, f)|
  {
    assert [f][1..] == [];
  }

  lemma {:induction false} ItemTagsConcat(a: seq<Item>, b: seq<Item>)
    ensures ItemTags(a + b) == ItemTags(a) + ItemTags(b)
    decreases |a|
  {
    if a == [] {
      assert a + b == b;
    } else {
      assert (a + b)[1..] == a[1..] + b;
      ItemTagsConcat(a[1..], b);
    }
  }

  lemma {:induction false} LegalTags(T: TagTable, defs: seq<GroupDef>, items: seq<Item>, above: Option<set<Tag>>,
                                     used: set<Tag>)
    requires T.texts != [] && Legal(T, defs, items, above, used)
    ensures MSG_TYPE !in ItemTags(items)
    decreases |items|
  {
    if items != [] {
      LegalTags(T, defs, items[1..], above, used + {ItemTag(items[0])});
    }
  }

  /** What the parser needs of the items of a whole message, header included. */
  ghost predicate Parseable(T: TagTable, groups: GroupDefs, m: Message, defs: seq<GroupDef>)
    requires T.texts != []
  {
    && Selects(groups, m.msgType, defs) && Legal(T, [], m.front, None, {}) && NotCounted(defs, MSG_TYPE)
    && Legal(T, defs, m.body, None, ItemTags(m.front) + {MSG_TYPE})
  }

  lemma MessageFlattens(T: TagTable, m: Message)
    ensures var t := MsgTypeToken(T, m.front, m.msgType);
      && Flatten(m.Items()) == Flatten(m.front) + [FieldText(MSG_TYPE, m.msgType)] + Flatten(m.body)
      && MapFields(T, m.Items(), 0) == MapFields(T, m.front, 0) + [Stored(t)] + MapFields(T, m.body, t.End() + 1)
  {
    FrontFields(T, m.front, m.msgType);
    FlattenConcat(m.front + [PlainField(MSG_TYPE, m.msgType)], m.body);
    MapFieldsConcat(T, m.front + [PlainField(MSG_TYPE, m.msgType)], m.body, 0);
  }

  lemma SplitAround(T: TagTable, ok: Check, all: seq<FieldText>, a: seq<FieldText>, f: FieldText, b: seq<FieldText>)
    requires all == a + [f] + b && Everywhere(ok, T, all, 0)
    ensures var t := TokenAt(T, f, Size(T, a));
      && Everywhere(ok, T, a, 0) && ok(f, Size(T, a)) && Everywhere(ok, T, b, t.End() + 1)
      && TokensAt(T, all, 0) == TokensAt(T, a, 0) + [t] + TokensAt(T, b, t.End() + 1)
  {
    Middle(T, ok, a, f, b, 0);
  }

  /** Where the machine stands behind MsgType. */
  function AtBody(T: TagTable, m: Message, defs: seq<GroupDef>): Machine {
    Machine([], MapV(MapFields(T, m.front, 0) + [Stored(MsgTypeToken(T, m.front, m.msgType))]), defs)
  }

  function BodyTokens(T: TagTable, m: Message): seq<Token> {
    TokensAt(T, Flatten(m.body), MsgTypeToken(T, m.front, m.msgType).End() + 1)
  }

  function BodyFields(T: TagTable, m: Message): seq<FieldV> {
    MapFields(T, m.body, MsgTypeToken(T, m.front, m.msgType).End() + 1)
  }

  lemma FrontThenBody(T: TagTable, step: Stepper, m: Message, defs: seq<GroupDef>)
    requires FeedAll(step, START, TokensAt(T, Flatten(m.front), 0)) == BehindFront(T, m.front)
    requires step(BehindFront(T, m.front), MsgTypeToken(T, m.front, m.msgType)) == AtBody(T, m, defs)
    requires FeedAll(step, AtBody(T, m, defs), BodyTokens(T, m)) == Extended(AtBody(T, m, defs), BodyFields(T, m))
    ensures FeedAll(step, START, TokensAt(T, Flatten(m.front), 0) + [MsgTypeToken(T, m.front, m.msgType)]
                    + BodyTokens(T, m))
         == Machine([], MapV(MapFields(T, m.Items(), 0)), defs)
  {
    var front, t := TokensAt(T, Flatten(m.front), 0), MsgTypeToken(T, m.front, m.msgType);
    FeedConcat(step, START, front, [t]);
    FeedOne(step, BehindFront(T, m.front), t);
    FeedConcat(step, START, front + [t], BodyTokens(T, m));
    MessageFields(T, m);
  }

  lemma MessageFields(T: TagTable, m: Message)
    ensures MapFields(T, m.Items(), 0)
         == MapFields(T, m.front, 0) + [Stored(MsgTypeToken(T, m.front, m.msgType))] + BodyFields(T, m)
  {
    MessageFlattens(T, m);
  }

  lemma AtBodyTags(T: TagTable, m: Message, defs: seq<GroupDef>)
    ensures TagsOf(AtBody(T, m, defs).current.fields) == ItemTags(m.front) + {MSG_TYPE}
  {
    FieldTags(T, m.front, 0);
    TagsAppend(MapFields(T, m.front, 0), Stored(MsgTypeToken(T, m.front, m.msgType)));
  }

  /** Behind MsgType, the machine is ready for the items of the body, under the definitions for the type. */
  lemma BodyFeedable(T: TagTable, groups: GroupDefs, input: Bytes, m: Message, defs: seq<GroupDef>)
    requires T.texts != [] && Parseable(T, groups, m, defs)
    requires AllReadable(T, input, Flatten(m.body), MsgTypeToken(T, m.front, m.msgType).End() + 1)
    ensures Feedable(T, input, AtBody(T, m, defs), m.body,
                     MsgTypeToken(T, m.front, m.msgType).End() + 1, None)
  {
    AtBodyTags(T, m, defs);
  }

  lemma BodyFed(T: TagTable, groups: GroupDefs, input: Bytes, m: Message, defs: seq<GroupDef>)
    requires T.texts != [] && Parseable(T, groups, m, defs)
    requires AllReadable(T, input, Flatten(m.body), MsgTypeToken(T, m.front, m.msgType).End() + 1)
    ensures var m' := AtBody(T, m, defs);
      FeedAll(StepperOf(T, groups, input), m', BodyTokens(T, m)) == Extended(m', BodyFields(T, m))
  {
    BodyFeedable(T, groups, input, m, defs);
    ItemsFed(T, groups, input, AtBody(T, m, defs), m.body,
             MsgTypeToken(T, m.front, m.msgType).End() + 1, None);
  }

  /** The fields of a message that can be read from the input are those in front of MsgType, MsgType, and those of the
      body, each of which can be read. */
  lemma MessageSplits(T: TagTable, input: Bytes, m: Message)
    requires AllReadable(T, input, Flatten(m.Items()), 0)
    ensures var t := MsgTypeToken(T, m.front, m.msgType);
      && AllReadable(T, input, Flatten(m.front), 0) && AllReadable(T, input, Flatten(m.body), t.End() + 1)
      && Readable(T, input, FieldText(MSG_TYPE, m.msgType), Size(T, Flatten(m.front)))
      && TokensAt(T, Flatten(m.Items()), 0) == TokensAt(T, Flatten(m.front), 0) + [t] + BodyTokens(T, m)
  {
    var f := FieldText(MSG_TYPE, m.msgType);
    assert Flatten(m.Items()) == Flatten(m.front) + [f] + Flatten(m.body) by {
      MessageFlattens(T, m);
    }
    SplitAround(T, ReadableIn(T, input), Flatten(m.Items()), Flatten(m.front), f, Flatten(m.body));
  }

  /** Feeding the fields of a message rebuilds its tree. */
  lemma MessageFed(T: TagTable, groups: GroupDefs, input: Bytes, m: Message, defs: seq<GroupDef>)
    requires T.texts != [] && Parseable(T, groups, m, defs) && AllReadable(T, input, Flatten(m.Items()), 0)
    ensures FeedAll(StepperOf(T, groups, input), START, TokensAt(T, Flatten(m.Items()), 0))
         == Machine([], MapV(MapFields(T, m.Items(), 0)), defs)
  {
    MessageSplits(T, input, m);
    FrontFed(T, groups, input, m.front);
    MsgTypeFed(T, groups, input, m.front, m.msgType, defs);
    BodyFed(T, groups, input, m, defs);
    FrontThenBody(T, StepperOf(T, groups, input), m, defs);
  }

  /** The message with the two fields of its header in front. */
  function WithHeader(T: TagTable, m: Message): Message {
    m.(front := HeaderItems(T, m.Items()) + m.front)
  }

  lemma HeaderInFront(T: TagTable, m: Message)
    ensures WithHeader(T, m).Items() == HeaderItems(T, m.Items()) + m.Items()
    ensures Flatten(WithHeader(T, m).Items()) == AllFields(T, Flatten(m.Items()))
  {
    HeaderFlattens(T, m.Items());
    Associates(HeaderItems(T, m.Items()), m.front, [PlainField(MSG_TYPE, m.msgType)]);
    Associates(HeaderItems(T, m.Items()), m.front + [PlainField(MSG_TYPE, m.msgType)], m.body);
  }

  lemma HeaderIsParseable(T: TagTable, groups: GroupDefs, m: Message) returns (defs: seq<GroupDef>)
    requires T.texts != [] && LegalMessage(T, groups, m)
    ensures Parseable(T, groups, WithHeader(T, m), defs)
  {
    defs := if m.msgType in groups then groups[m.msgType] else [];
    var h := HeaderItems(T, m.Items());
    assert ItemTags(h) == {BEGIN_STRING, BODY_LENGTH} by {
      assert h[1..][1..] == [] && ItemTags(h[1..]) == {BODY_LENGTH} + {};
    }
    ItemTagsConcat(h, m.front);
    var front := h + m.front;
    assert front[1..][1..] == m.front;
    assert {} + {BEGIN_STRING} + {BODY_LENGTH} == {BEGIN_STRING, BODY_LENGTH};
    assert Legal(T, [], front[1..], None, {} + {BEGIN_STRING});
  }

  /** The tree that the parser leaves for a stream reads, with the values taken from the stream, exactly as this message
      with its header in front. */
  ghost predicate ReadsAs(T: TagTable, groups: GroupDefs, stream: Bytes, m: Message)
    requires T.texts != []
  {
    && ParsedTree(T, groups, stream) == MapV(MapFields(T, WithHeader(T, m).Items(), 0))
    && ReadFields(SourceOf(stream), ParsedTree(T, groups, stream).fields) == HeaderItems(T, m.Items()) + m.Items()
  }

  lemma FieldsReadAs(T: TagTable, groups: GroupDefs, stream: Bytes, m: Message)
    requires T.texts != [] && LegalMessage(T, groups, m)
    requires var all := AllFields(T, Flatten(m.Items()));
      && Parsed(T, stream).tokens == TokensAt(T, all, 0) && Parsed(T, stream).stop != ShortRead
      && AllReadable(T, stream, all, 0)
    ensures ReadsAs(T, groups, stream, m)
  {
    var whole := WithHeader(T, m);
    HeaderInFront(T, m);
    var defs := HeaderIsParseable(T, groups, m);
    MessageFed(T, groups, stream, whole, defs);
    MessageHasInstances(T, groups, whole, defs);
    ReadableGives(T, stream);
    TreeReads(T, SourceOf(stream), ReadableIn(T, stream), whole.Items(), 0);
  }

  /** Parsing undoes building, with groups: whatever the tree of a legal message, and whatever follows it in the stream,
      flattening it, building it and parsing the bytes gives back exactly that tree, with the order and the nesting of
      all group instances. */
  lemma MessageRoundTrip(T: TagTable, groups: GroupDefs, m: Message, more: Bytes)
    requires Sendable(T, Flatten(m.Items())) && LegalMessage(T, groups, m)
    ensures ReadsAs(T, groups, B.Built(T, Flatten(m.Items())) + more, m)
  {
    BuiltInStream(T, Flatten(m.Items()), more);
    FieldsReadAs(T, groups, B.Built(T, Flatten(m.Items())) + more, m);
  }

  /** The same for the commented form of the trailer; then exactly the bytes of the message are consumed, too. */
  lemma CommentedMessageRoundTrip(T: TagTable, groups: GroupDefs, m: Message, more: Bytes)
    requires Sendable(T, Flatten(m.Items())) && LegalMessage(T, groups, m)
    ensures var bytes := BuiltAsCommented(T, Flatten(m.Items()));
      ReadsAs(T, groups, bytes + more, m) && Parsed(T, bytes + more).consumed == |bytes|
  {
    var fields := Flatten(m.Items());
    var bytes := BuiltAsCommented(T, fields);
    CommentedInStream(T, fields, more);
    FieldsReadAs(T, groups, bytes + more, m);
  }

  lemma MessageHasInstances(T: TagTable, groups: GroupDefs, m: Message, defs: seq<GroupDef>)
    requires T.texts != [] && Parseable(T, groups, m, defs)
    ensures NoEmptyGroup(m.Items())
  {
    LegalHasInstances(T, [], m.front, None, {});
    LegalHasInstances(T, defs, m.body, None, ItemTags(m.front) + {MSG_TYPE});
    var item := PlainField(MSG_TYPE, m.msgType);
    assert [item][1..] == [];
    NoEmptyGroupConcat(m.front, [item]);
    NoEmptyGroupConcat(m.front + [item], m.body);
  }

  // ----- Without group definitions -----

  /** getString of a map. */
  function GetString(input: Bytes, m: MapV, tag: Tag): Option<Bytes> {
    var i := FindField(m.fields, tag);
    if i.None? then None else Some(SourceOf(input)(m.fields[i.value].offset, m.fields[i.value].length))
  }

  ghost predicate DistinctTags(fs: seq<FieldText>) {
    forall i, j :: 0 <= i < j < |fs| ==> fs[i].tag != fs[j].tag
  }

  function StoredAt(T: TagTable, fs: seq<FieldText>, at: nat): seq<FieldV> {
    if fs == [] then [] else [Stored(TokenAt(T, fs[0], at))] + StoredAt(T, fs[1..], TokenAt(T, fs[0], at).End() + 1)
  }

  /** A field with a new tag is stored at the end of the root map. */
  ghost predicate StoresNew(step: Stepper, fields: seq<FieldV>, t: Token) {
    t.tag !in TagsOf(fields) ==> step(Machine([], MapV(fields), []), t) == Machine([], MapV(fields + [Stored(t)]), [])
  }

  ghost predicate AlwaysStoresNew(step: Stepper) {
    forall fields, t :: StoresNew(step, fields, t)
  }

  lemma WithoutDefinitions(T: TagTable, input: Bytes)
    requires T.texts != []
    ensures AlwaysStoresNew(StepperOf(T, map[], input))
  {
    forall fields: seq<FieldV>, t: Token
      ensures StoresNew(StepperOf(T, map[], input), fields, t)
    {
      if t.tag !in TagsOf(fields) {
        PutNew(MapV(fields), t);
      }
    }
  }

  lemma {:induction false} FeedDistinct(T: TagTable, step: Stepper, fields: seq<FieldV>, fs: seq<FieldText>, at: nat)
    requires AlwaysStoresNew(step) && DistinctTags(fs) && forall f :: f in fs ==> f.tag !in TagsOf(fields)
    ensures FeedAll(step, Machine([], MapV(fields), []), TokensAt(T, fs, at))
         == Machine([], MapV(fields + StoredAt(T, fs, at)), [])
    decreases |fs|
  {
    if fs == [] {
      assert fields + [] == fields;
    } else {
      var t := TokenAt(T, fs[0], at);
      assert fs[0] in fs && StoresNew(step, fields, t);
      TagsAppend(fields, Stored(t));
      FeedDistinct(T, step, fields + [Stored(t)], fs[1..], t.End() + 1);
      Associates(fields, [Stored(t)], StoredAt(T, fs[1..], t.End() + 1));
    }
  }

  lemma {:induction false} DistinctAreFound(T: TagTable, ok: Check, fs: seq<FieldText>, at: nat, i: nat)
      returns (at': nat)
    requires i < |fs| && DistinctTags(fs) && Everywhere(ok, T, fs, at)
    ensures ok(fs[i], at') && |StoredAt(T, fs, at)| == |fs|
    ensures FindField(StoredAt(T, fs, at), fs[i].tag) == Some(i)
    ensures StoredAt(T, fs, at)[i] == Stored(TokenAt(T, fs[i], at'))
    decreases |fs|
  {
    var behind := TokenAt(T, fs[0], at).End() + 1;
    var first, rest := Stored(TokenAt(T, fs[0], at)), StoredAt(T, fs[1..], behind);
    assert ([first] + rest)[0] == first && ([first] + rest)[1..] == rest;
    if i == 0 {
      at' := at;
      if |fs| > 1 {
        var _ := DistinctAreFound(T, ok, fs[1..], behind, 0);
      }
    } else {
      at' := DistinctAreFound(T, ok, fs[1..], behind, i - 1);
      assert fs[1..][i - 1] == fs[i];
    }
  }

  /** Parsing undoes building, without group definitions: exactly the fields of the header and those that were added are
      found, and getString gives for each the value that was written. */
  lemma FieldsRoundTrip(T: TagTable, fields: seq<FieldText>)
    requires Sendable(T, fields) && DistinctTags(AllFields(T, fields))
    ensures var bytes, all := B.Built(T, fields), AllFields(T, fields);
      var tree := ParsedTree(T, map[], bytes);
      && tree == MapV(StoredAt(T, all, 0))
      && forall i :: 0 <= i < |all| ==> GetString(bytes, tree, all[i].tag) == Some(all[i].value)
  {
    var bytes, all := B.Built(T, fields), AllFields(T, fields);
    ParseUndoesBuild(T, fields);
    WithoutDefinitions(T, bytes);
    FeedDistinct(T, StepperOf(T, map[], bytes), [], all, 0);
    assert [] + StoredAt(T, all, 0) == StoredAt(T, all, 0);
    forall i | 0 <= i < |all|
      ensures GetString(bytes, MapV(StoredAt(T, all, 0)), all[i].tag) == Some(all[i].value)
    {
      var at := DistinctAreFound(T, ReadableIn(T, bytes), all, 0, i);
      ReadableGives(T, bytes);
      assert GivesValue(SourceOf(bytes), ReadableIn(T, bytes), T, all[i], at);
    }
  }
}
