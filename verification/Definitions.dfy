/** Group definitions as they are registered (core/Parser.hpp:26-40): when all their tags are different, every one of
    them is in force, wherever it stands in the list (core/Parser.cpp:88-123). */
module Definitions {
  import opened Orders
  import opened FixBytes
  import opened FixTags
  import opened Scanner
  import opened Encoding
  import opened GroupTree
  import opened RoundTrip
  import opened MessageTrees
  import B = Builder

  /** No tag is used twice, be it as count or as end. */
  ghost predicate AllDifferent(defs: seq<GroupDef>) {
    forall i, j :: 0 <= i < |defs| && 0 <= j < |defs| ==>
      && defs[i].count != defs[j].end
      && (i != j ==> defs[i].count != defs[j].count && defs[i].end != defs[j].end)
  }

  lemma EveryDefinitionCounts(defs: seq<GroupDef>, def: GroupDef)
    requires AllDifferent(defs)
    ensures def in defs <==> OpensFirst(defs, def)
    ensures def in defs <==> ClosesFirst(defs, def)
  {
    if def in defs {
      var k: nat :| k < |defs| && defs[k] == def;
      assert Concerns(defs, def.count, k) && Concerns(defs, def.end, k);
    }
  }

  /** A plain field with this tag opens no group, and closes none that is open around it. */
  ghost predicate Apart(defs: seq<GroupDef>, tag: Tag, above: Option<set<Tag>>) {
    forall def :: def in defs ==>
      && def.count != tag
      && (def.end == tag ==> above.None? || def.count !in above.value)
  }

  lemma ApartIsHarmless(defs: seq<GroupDef>, tag: Tag, above: Option<set<Tag>>)
    requires AllDifferent(defs)
    ensures Apart(defs, tag, above) <==> Harmless(defs, tag, above)
  {
    forall k: nat | k < |defs| && (defs[k].count == tag || defs[k].end == tag)
      ensures Concerns(defs, tag, k) && defs[k] in defs
    {
    }
    if Harmless(defs, tag, above) {
      forall def | def in defs
        ensures def.count != tag && (def.end == tag ==> above.None? || def.count !in above.value)
      {
        var k: nat :| k < |defs| && defs[k] == def;
      }
    }
  }

  /** Tags are distinct within each map; each group is over one of the definitions, announces its number of instances,
      at least one, and each instance ends with the end tag of its group and does not use it before. */
  ghost predicate Over(T: TagTable, defs: seq<GroupDef>, items: seq<Item>, above: Option<set<Tag>>, used: set<Tag>)
    requires T.texts != []
    decreases items
  {
    items != [] ==>
      var tag := ItemTag(items[0]);
      && tag !in used && tag != MSG_TYPE
      && ItemOver(T, defs, items[0], above, used)
      && Over(T, defs, items[1..], above, used + {tag})
  }

  ghost predicate ItemOver(T: TagTable, defs: seq<GroupDef>, item: Item, above: Option<set<Tag>>, used: set<Tag>)
    requires T.texts != []
    decreases item
  {
    match item
    case PlainField(tag, _) => Apart(defs, tag, above)
    case Group(def, count, instances) =>
      && def in defs && def.count != T.Invalid() && def.end != MSG_TYPE
      && instances != [] && CountFits(ParseSigned(count), |instances|)
      && forall i :: 0 <= i < |instances| ==> InstanceOver(T, defs, def, instances[i], used + {def.count})
  }

  ghost predicate InstanceOver(T: TagTable, defs: seq<GroupDef>, def: GroupDef, instance: Instance, above: set<Tag>)
    requires T.texts != []
    decreases instance
  {
    && Over(T, defs, instance.items, Some(above), {})
    && forall k :: 0 <= k < |instance.items| ==> ItemTag(instance.items[k]) != def.end
  }

  lemma {:induction false} OverIsLegal(T: TagTable, defs: seq<GroupDef>, items: seq<Item>, above: Option<set<Tag>>,
                                       used: set<Tag>)
    requires T.texts != [] && AllDifferent(defs)
    ensures Over(T, defs, items, above, used) <==> Legal(T, defs, items, above, used)
    decreases items
  {
    if items != [] {
      ItemOverIsLegal(T, defs, items[0], above, used);
      OverIsLegal(T, defs, items[1..], above, used + {ItemTag(items[0])});
    }
  }

  lemma {:induction false} ItemOverIsLegal(T: TagTable, defs: seq<GroupDef>, item: Item, above: Option<set<Tag>>,
                                           used: set<Tag>)
    requires T.texts != [] && AllDifferent(defs)
    ensures ItemOver(T, defs, item, above, used) <==> LegalItem(T, defs, item, above, used)
    decreases item
  {
    match item {
      case PlainField(tag, _) => ApartIsHarmless(defs, tag, above);
      case Group(def, count, instances) =>
        EveryDefinitionCounts(defs, def);
        forall i | 0 <= i < |instances|
          ensures InstanceOver(T, defs, def, instances[i], used + {def.count})
             <==> LegalInstance(T, defs, def, instances[i], used + {def.count})
        {
          OverIsLegal(T, defs, instances[i].items, Some(used + {def.count}), {});
        }
    }
  }

  /** A message whose body is over the definitions registered for its type. */
  ghost predicate MessageOver(T: TagTable, defs: seq<GroupDef>, m: Message)
    requires T.texts != []
  {
    && Over(T, [], m.front, None, {BEGIN_STRING, BODY_LENGTH})
    && (forall def :: def in defs ==> def.count != MSG_TYPE)
    && Over(T, defs, m.body, None, {BEGIN_STRING, BODY_LENGTH} + ItemTags(m.front) + {MSG_TYPE})
  }

  /** When the tags of the definitions registered for its type are all different, a message is legal exactly if its
      groups are over these definitions. */
  lemma RegisteredIsLegal(T: TagTable, groups: GroupDefs, m: Message)
    requires T.texts != [] && m.msgType in groups && AllDifferent(groups[m.msgType])
    ensures LegalMessage(T, groups, m) <==> MessageOver(T, groups[m.msgType], m)
  {
    var defs := groups[m.msgType];
    OverIsLegal(T, [], m.front, None, {BEGIN_STRING, BODY_LENGTH});
    OverIsLegal(T, defs, m.body, None, {BEGIN_STRING, BODY_LENGTH} + ItemTags(m.front) + {MSG_TYPE});
    forall def | def in defs
      ensures exists k: nat :: Concerns(defs, def.count, k) && defs[k] == def
    {
      EveryDefinitionCounts(defs, def);
    }
    if NotCounted(defs, MSG_TYPE) {
      forall def | def in defs
        ensures def.count != MSG_TYPE
      {
        var k: nat :| Concerns(defs, def.count, k) && defs[k] == def;
      }
    }
  }

  /** The round trip, from what is registered alone. */
  lemma RegisteredRoundTrip(T: TagTable, groups: GroupDefs, m: Message, more: Bytes)
    requires Sendable(T, Flatten(m.Items())) && m.msgType in groups && AllDifferent(groups[m.msgType])
    requires MessageOver(T, groups[m.msgType], m)
    ensures ReadsAs(T, groups, B.Built(T, Flatten(m.Items())) + more, m)
  {
    RegisteredIsLegal(T, groups, m);
    MessageRoundTrip(T, groups, m, more);
  }

  // ----- An example -----

  /** The type, and a group of two instances without fields of their own. */
  const SINGLE: Bytes := [68]

  function TwoInstances(def: GroupDef, last: Bytes, last': Bytes): Message {
    Message([], SINGLE, [Group(def, [ZERO + 2], [Instance([], last), Instance([], last')])])
  }

  lemma TwoInstancesAreOver(T: TagTable, defs: seq<GroupDef>, def: GroupDef, last: Bytes, last': Bytes, used: set<Tag>)
    requires T.texts != [] && def in defs && def.count !in used + {MSG_TYPE, T.Invalid()} && def.end != MSG_TYPE
    ensures Over(T, defs, TwoInstances(def, last, last').body, None, used)
  {
    var items := TwoInstances(def, last, last').body;
    assert ParseSigned([ZERO + 2]) == 2 by {
      IntegerRoundTrip(2);
      assert WriteSigned(2) == [ZERO + 2];
    }
    forall i | 0 <= i < |items[0].instances|
      ensures InstanceOver(T, defs, def, items[0].instances[i], used + {def.count})
    {
    }
    assert ItemOver(T, defs, items[0], None, used);
    assert items[1..] == [] && Over(T, defs, [], None, used + {def.count});
  }

  lemma {:induction false} InstancesCounted(T: TagTable, def: GroupDef, instances: seq<Instance>, at: nat)
    ensures |InstanceMaps(T, def, instances, at)| == |instances|
    decreases |instances|
  {
    if instances != [] {
      InstancesCounted(T, def, instances[1..], EndToken(T, def, instances[0], at).End() + 1);
    }
  }

  /** The last item of a message is the last field of its tree. */
  lemma LastGroup(T: TagTable, items: seq<Item>, g: Item)
    requires g.Group?
    ensures var fields := MapFields(T, items + [g], 0);
      |fields| > 0 && fields[|fields| - 1].tag == g.def.count && |fields[|fields| - 1].groups| == |g.instances|
  {
    var at := Size(T, Flatten(items));
    MapFieldsConcat(T, items, [g], 0);
    assert [g][1..] == [] && MapFields(T, [g], at) == [ItemField(T, g, at)] + [];
    InstancesCounted(T, g.def, g.instances, TokenAt(T, FieldText(g.def.count, g.count), at).End() + 1);
  }

  /** The second of two registered definitions: a message with two instances of its group comes back from its bytes with
      both of them. */
  lemma SecondDefinitionCounts(T: TagTable, first: GroupDef, def: GroupDef, last: Bytes, last': Bytes)
    requires var m := TwoInstances(def, last, last'); Sendable(T, Flatten(m.Items()))
    requires AllDifferent([first, def]) && def.count !in {BEGIN_STRING, BODY_LENGTH, MSG_TYPE, T.Invalid()}
    requires first.count != MSG_TYPE && def.end != MSG_TYPE
    ensures var m, groups := TwoInstances(def, last, last'), map[SINGLE := [first, def]];
      var fields := ParsedTree(T, groups, B.Built(T, Flatten(m.Items()))).fields;
      |fields| > 0 && fields[|fields| - 1].tag == def.count && |fields[|fields| - 1].groups| == 2
  {
    var m, groups := TwoInstances(def, last, last'), map[SINGLE := [first, def]];
    var bytes := B.Built(T, Flatten(m.Items()));
    TwoInstancesAreOver(T, [first, def], def, last, last', {BEGIN_STRING, BODY_LENGTH} + {} + {MSG_TYPE});
    assert ReadsAs(T, groups, bytes, m) by {
      RegisteredRoundTrip(T, groups, m, []);
      assert bytes + [] == bytes;
    }
    TreeOfTwoInstances(T, def, last, last');
  }

  lemma TreeOfTwoInstances(T: TagTable, def: GroupDef, last: Bytes, last': Bytes)
    ensures var fields := MapFields(T, WithHeader(T, TwoInstances(def, last, last')).Items(), 0);
      |fields| > 0 && fields[|fields| - 1].tag == def.count && |fields[|fields| - 1].groups| == 2
  {
    var m := TwoInstances(def, last, last');
    var before := HeaderItems(T, m.Items()) + [PlainField(MSG_TYPE, SINGLE)];
    assert WithHeader(T, m).Items() == before + [m.body[0]] by {
      HeaderInFront(T, m);
      assert m.Items() == [PlainField(MSG_TYPE, SINGLE)] + [m.body[0]];
    }
    LastGroup(T, before, m.body[0]);
  }
}
