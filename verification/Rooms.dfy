/** What a parse needs: a place in its map for each field, and a map in the arena for each group instance that is opened
    (core/FieldList.hpp:14-41, core/Parser.cpp:76-126). */
module Rooms {
  import opened Orders
  import opened FixBytes
  import opened FixTags
  import opened Scanner
  import opened Encoding
  import opened Sequences
  import opened GroupTree
  import F = FieldStore

  /** There is a place for this field in the current map. */
  predicate FieldFits(m: Machine, t: Token) {
    FindField(m.current.fields, t.tag).Some? || |m.current.fields| < F.MAX_FIELDS
  }

  ghost predicate Roomy(step: Stepper, m: Machine, tokens: seq<Token>)
    decreases |tokens|
  {
    tokens != [] ==> FieldFits(m, tokens[0]) && Roomy(step, step(m, tokens[0]), tokens[1..])
  }

  /** Right after an instance has been opened, and at no other time between two fields, the current map is empty: each
      field is stored before groups are looked at. */
  predicate HasOpened(m: Machine) {
    m.current.fields == []
  }

  /** How many instances are opened while these fields are fed. */
  function Openings(step: Stepper, m: Machine, tokens: seq<Token>): nat
    decreases |tokens|
  {
    if tokens == [] then 0
    else (if HasOpened(step(m, tokens[0])) then 1 else 0) + Openings(step, step(m, tokens[0]), tokens[1..])
  }

  /** The fields at which groups are looked at: all but a last one after which the bulk read comes up short. */
  function Regrouped(r: Scan): seq<Token> {
    if r.stop == ShortRead && r.tokens != [] then r.tokens[..|r.tokens| - 1] else r.tokens
  }

  lemma {:induction false} CostConcat(step: Stepper, m: Machine, a: seq<Token>, b: seq<Token>)
    ensures Openings(step, m, a + b) == Openings(step, m, a) + Openings(step, FeedAll(step, m, a), b)
    ensures Roomy(step, m, a + b) <==> Roomy(step, m, a) && Roomy(step, FeedAll(step, m, a), b)
    decreases |a|
  {
    if a == [] {
      assert a + b == b;
    } else {
      assert (a + b)[1..] == a[1..] + b;
      CostConcat(step, step(m, a[0]), a[1..], b);
    }
  }

  lemma CostOne(step: Stepper, m: Machine, t: Token)
    ensures Openings(step, m, [t]) == if HasOpened(step(m, t)) then 1 else 0
    ensures Roomy(step, m, [t]) <==> FieldFits(m, t)
  {
    assert [t][1..] == [];
  }

  // ----- What a legal message needs -----

  /** The group instances of a message, those inside of others included. */
  function InstancesIn(items: seq<Item>): nat
    decreases items
  {
    if items == [] then 0 else InstancesOf(items[0]) + InstancesIn(items[1..])
  }

  function InstancesOf(item: Item): nat
    decreases item
  {
    if item.PlainField? then 0 else InstancesInAll(item.instances)
  }

  function InstancesInAll(instances: seq<Instance>): nat
    decreases instances
  {
    if instances == [] then 0 else 1 + InstancesIn(instances[0].items) + InstancesInAll(instances[1..])
  }

  /** No instance, end field included, has more fields than a map holds. */
  ghost predicate Slim(items: seq<Item>)
    decreases items
  {
    items != [] ==> SlimItem(items[0]) && Slim(items[1..])
  }

  ghost predicate SlimItem(item: Item)
    decreases item
  {
    item.Group? ==> SlimInstances(item.instances)
  }

  ghost predicate SlimInstances(instances: seq<Instance>)
    decreases instances
  {
    instances != [] ==>
      |instances[0].items| < F.MAX_FIELDS && Slim(instances[0].items) && SlimInstances(instances[1..])
  }

  /** These items have a place in a map that has n fields already, and those of their instances in theirs. */
  ghost predicate HavePlace(items: seq<Item>, n: nat) {
    Slim(items) && (items != [] ==> n + |items| <= F.MAX_FIELDS)
  }

  /** Feeding these fields opens n instances, and finds a place for each if and only if `roomy`. */
  ghost predicate Costs(step: Stepper, m: Machine, tokens: seq<Token>, n: nat, roomy: bool) {
    Openings(step, m, tokens) == n && (Roomy(step, m, tokens) <==> roomy)
  }

  lemma CostsConcat(step: Stepper, m: Machine, a: seq<Token>, n: nat, x: bool, m': Machine, b: seq<Token>, k: nat,
                    y: bool)
    requires Costs(step, m, a, n, x) && FeedAll(step, m, a) == m' && Costs(step, m', b, k, y)
    ensures Costs(step, m, a + b, n + k, x && y)
  {
    CostConcat(step, m, a, b);
  }

  /** A first item and then the rest. */
  lemma ItemsCostChain(T: TagTable, step: Stepper, m: Machine, items: seq<Item>, at: nat)
    requires items != [] && FedItem(T, step, m, items[0], at)
    requires var m', n := Extended(m, [ItemField(T, items[0], at)]), |m.current.fields|;
      && Costs(step, m, TokensAt(T, FlattenItem(items[0]), at), InstancesOf(items[0]),
               SlimItem(items[0]) && n < F.MAX_FIELDS)
      && Costs(step, m', TokensAt(T, Flatten(items[1..]), at + Size(T, FlattenItem(items[0]))),
               InstancesIn(items[1..]), HavePlace(items[1..], n + 1))
    ensures Costs(step, m, TokensAt(T, Flatten(items), at), InstancesIn(items),
                  HavePlace(items, |m.current.fields|))
  {
    var first, rest := FlattenItem(items[0]), Flatten(items[1..]);
    assert TokensAt(T, Flatten(items), at) == TokensAt(T, first, at) + TokensAt(T, rest, at + Size(T, first)) by {
      TokensConcat(T, first, rest, at);
    }
    CostsConcat(step, m, TokensAt(T, first, at), InstancesOf(items[0]),
                SlimItem(items[0]) && |m.current.fields| < F.MAX_FIELDS, Extended(m, [ItemField(T, items[0], at)]),
                TokensAt(T, rest, at + Size(T, first)), InstancesIn(items[1..]),
                HavePlace(items[1..], |m.current.fields| + 1));
  }

  /** Feeding legal items opens exactly their instances; it finds a place for every field if and only if no map gets too
      many. */
  lemma {:induction false} ItemsCost(T: TagTable, input: Bytes, step: Stepper, m: Machine, items: seq<Item>, at: nat,
                                     above: Option<set<Tag>>)
    requires Moves(T, input, step) && Feedable(T, input, m, items, at, above)
    ensures Costs(step, m, TokensAt(T, Flatten(items), at), InstancesIn(items),
                  HavePlace(items, |m.current.fields|))
    decreases items, 1
  {
    if items != [] {
      var m', at' := Extended(m, [ItemField(T, items[0], at)]), at + Size(T, FlattenItem(items[0]));
      FeedFirst(T, input, step, m, items, at, above);
      FirstCost(T, input, step, m, items, at, above);
      ItemsCost(T, input, step, m', items[1..], at', above);
      ItemsCostChain(T, step, m, items, at);
    }
  }

  lemma {:induction false} FirstCost(T: TagTable, input: Bytes, step: Stepper, m: Machine, items: seq<Item>, at: nat,
                                     above: Option<set<Tag>>)
    requires Moves(T, input, step) && Feedable(T, input, m, items, at, above) && items != []
    ensures Costs(step, m, TokensAt(T, FlattenItem(items[0]), at), InstancesOf(items[0]),
                  SlimItem(items[0]) && |m.current.fields| < F.MAX_FIELDS)
    decreases items, 0
  {
    FirstFeedable(T, input, m, items, at, above);
    ItemCost(T, input, step, m, items[0], at, above);
  }

  /** A field with a new tag needs a place of its own. */
  lemma NewFieldFits(m: Machine, t: Token)
    requires t.tag !in TagsOf(m.current.fields)
    ensures FieldFits(m, t) <==> |m.current.fields| < F.MAX_FIELDS
  {
    NotFound(m.current.fields, t.tag);
  }

  lemma {:induction false} ItemCost(T: TagTable, input: Bytes, step: Stepper, m: Machine, item: Item, at: nat,
                                    above: Option<set<Tag>>)
    requires Moves(T, input, step) && ItemFeedable(T, input, m, item, at, above)
    ensures Costs(step, m, TokensAt(T, FlattenItem(item), at), InstancesOf(item),
                  SlimItem(item) && |m.current.fields| < F.MAX_FIELDS)
    decreases item, 1
  {
    if item.PlainField? {
      PlainCost(T, input, step, m, item.tag, item.value, at, above);
    } else {
      GroupCost(T, input, step, m, item.def, item.count, item.instances, at, above);
    }
  }

  lemma PlainCost(T: TagTable, input: Bytes, step: Stepper, m: Machine, tag: Tag, value: Bytes, at: nat,
                  above: Option<set<Tag>>)
    requires Moves(T, input, step) && ItemFeedable(T, input, m, PlainField(tag, value), at, above)
    ensures Costs(step, m, TokensAt(T, FlattenItem(PlainField(tag, value)), at), 0, |m.current.fields| < F.MAX_FIELDS)
  {
    var t := TokenAt(T, FieldText(tag, value), at);
    Single(T, ReadableIn(T, input), FieldText(tag, value), at);
    assert StoresHarmless(step, m, t, above);
    NewFieldFits(m, t);
    CostOne(step, m, t);
  }

  lemma {:induction false} GroupCost(T: TagTable, input: Bytes, step: Stepper, m: Machine, def: GroupDef, count: Bytes,
                                     instances: seq<Instance>, at: nat, above: Option<set<Tag>>)
    requires Moves(T, input, step) && ItemFeedable(T, input, m, Group(def, count, instances), at, above)
    ensures Costs(step, m, TokensAt(T, FlattenItem(Group(def, count, instances)), at), InstancesInAll(instances),
                  SlimInstances(instances) && |m.current.fields| < F.MAX_FIELDS)
    decreases Group(def, count, instances), 0
  {
    var t := TokenAt(T, FieldText(def.count, count), at);
    GroupIsFeedable(T, input, step, m, def, count, instances, at, above);
    InstancesCost(T, input, step, m.stack, m.defs, def, m.current.fields, Stored(t), [], instances, t.End() + 1);
    GroupCostChain(T, step, m, def, count, instances, at);
  }

  /** A count field and then the instances. */
  lemma GroupCostChain(T: TagTable, step: Stepper, m: Machine, def: GroupDef, count: Bytes, instances: seq<Instance>,
                       at: nat)
    requires instances != [] && def.count !in TagsOf(m.current.fields)
    requires var t := TokenAt(T, FieldText(def.count, count), at);
      && HasOpened(step(m, t))
      && Costs(step, step(m, t), TokensAt(T, FlattenInstances(def, instances), t.End() + 1),
               InstancesInAll(instances) - 1, SlimInstances(instances))
    ensures Costs(step, m, TokensAt(T, FlattenItem(Group(def, count, instances)), at), InstancesInAll(instances),
                  SlimInstances(instances) && |m.current.fields| < F.MAX_FIELDS)
  {
    var t := TokenAt(T, FieldText(def.count, count), at);
    CountCost(step, m, t, step(m, t));
    GroupSplit(T, [], def, count, instances, at);
    CostsConcat(step, m, [t], 1, |m.current.fields| < F.MAX_FIELDS, step(m, t),
                TokensAt(T, FlattenInstances(def, instances), t.End() + 1), InstancesInAll(instances) - 1,
                SlimInstances(instances));
  }

  /** A new count field, which opens an instance. */
  lemma CountCost(step: Stepper, m: Machine, t: Token, inside: Machine)
    requires step(m, t) == inside && HasOpened(inside) && t.tag !in TagsOf(m.current.fields)
    ensures Costs(step, m, [t], 1, |m.current.fields| < F.MAX_FIELDS)
    ensures FeedAll(step, m, [t]) == inside
  {
    NewFieldFits(m, t);
    CostOne(step, m, t);
    FeedOne(step, m, t);
  }

  /** One instance that is open: its items, then its end field, which opens a sibling if there is to be one. */
  lemma {:induction false} InstanceCost(T: TagTable, input: Bytes, step: Stepper, base: seq<Frame>, defs: seq<GroupDef>,
                                        def: GroupDef, before: seq<FieldV>, f: FieldV, done: seq<MapV>,
                                        instance: Instance, at: nat)
    requires Moves(T, input, step) && AllReadable(T, input, Flatten(instance.items), at)
    requires GroupLegal(T, defs, def, before, f)
    requires LegalInstance(T, defs, def, instance, TagsOf(before) + {def.count})
    ensures Costs(step, Inside(base, defs, before, f, done, []),
                  TokensAt(T, Flatten(instance.items), at) + [EndToken(T, def, instance, at)],
                  InstancesIn(instance.items) + if |done| + 1 >= Announced(T, input, f) then 0 else 1,
                  Slim(instance.items) && |instance.items| < F.MAX_FIELDS)
    decreases instance
  {
    var m, t, fields := Inside(base, defs, before, f, done, []), EndToken(T, def, instance, at),
                        MapFields(T, instance.items, at);
    var inside := Inside(base, defs, before, f, done, fields);
    InsideFeedable(T, input, base, defs, def, before, f, done, instance, at);
    ItemsCost(T, input, step, m, instance.items, at, Some(TagsOf(before) + {def.count}));
    FeedInstance(T, input, step, base, defs, def, before, f, done, instance, at);
    EndCost(T, input, step, base, defs, def, before, f, done, instance, at);
    CostsConcat(step, m, TokensAt(T, Flatten(instance.items), at), InstancesIn(instance.items),
                HavePlace(instance.items, 0), inside, [t], if |done| + 1 >= Announced(T, input, f) then 0 else 1,
                |instance.items| < F.MAX_FIELDS);
  }

  lemma EndCost(T: TagTable, input: Bytes, step: Stepper, base: seq<Frame>, defs: seq<GroupDef>, def: GroupDef,
                before: seq<FieldV>, f: FieldV, done: seq<MapV>, instance: Instance, at: nat)
    requires Moves(T, input, step) && GroupLegal(T, defs, def, before, f)
    requires LegalInstance(T, defs, def, instance, TagsOf(before) + {def.count})
    ensures Costs(step, Inside(base, defs, before, f, done, MapFields(T, instance.items, at)),
                  [EndToken(T, def, instance, at)], if |done| + 1 >= Announced(T, input, f) then 0 else 1,
                  |instance.items| < F.MAX_FIELDS)
  {
    var t := EndToken(T, def, instance, at);
    var inside := Inside(base, defs, before, f, done, MapFields(T, instance.items, at));
    EndMoves(T, input, step, base, defs, def, before, f, done, instance, at);
    MapFieldTags(T, instance.items, at, def.end);
    MapFieldsSize(T, instance.items, at);
    NewFieldFits(inside, t);
    CostOne(step, inside, t);
  }

  lemma {:induction false} MapFieldsSize(T: TagTable, items: seq<Item>, at: nat)
    ensures |MapFields(T, items, at)| == |items|
    decreases |items|
  {
    if items != [] {
      MapFieldsSize(T, items[1..], at + Size(T, FlattenItem(items[0])));
    }
  }

  /** From the first instance on, which is open: the others are opened as the ones before them end. */
  lemma {:induction false} InstancesCost(T: TagTable, input: Bytes, step: Stepper, base: seq<Frame>,
                                         defs: seq<GroupDef>,
                                         def: GroupDef, before: seq<FieldV>, f: FieldV, done: seq<MapV>,
                                         instances: seq<Instance>, at: nat)
    requires Moves(T, input, step) && GroupFeedable(T, input, defs, def, before, f, done, instances, at)
    ensures Costs(step, Inside(base, defs, before, f, done, []), TokensAt(T, FlattenInstances(def, instances), at),
                  InstancesInAll(instances) - 1, SlimInstances(instances))
    decreases instances
  {
    var t, done' := EndToken(T, def, instances[0], at), done + [InstanceMap(T, def, instances[0], at)];
    assert AllReadable(T, input, Flatten(instances[0].items), at) by {
      InstancesEverywhere(T, ReadableIn(T, input), def, instances, at);
    }
    InstanceCost(T, input, step, base, defs, def, before, f, done, instances[0], at);
    FeedInstance(T, input, step, base, defs, def, before, f, done, instances[0], at);
    if |instances| > 1 {
      RestOfGroupFeedable(T, input, defs, def, before, f, done, instances, at);
      InstancesCost(T, input, step, base, defs, def, before, f, done', instances[1..], t.End() + 1);
    }
    InstancesCostChain(T, input, step, base, defs, def, before, f, done, instances, at);
  }

  lemma InstancesCostChain(T: TagTable, input: Bytes, step: Stepper, base: seq<Frame>, defs: seq<GroupDef>,
                           def: GroupDef,
                           before: seq<FieldV>, f: FieldV, done: seq<MapV>, instances: seq<Instance>, at: nat)
    requires T.texts != [] && instances != []
    requires |done| + 1 >= Announced(T, input, f) <==> |instances| == 1
    requires var t, done' := EndToken(T, def, instances[0], at), done + [InstanceMap(T, def, instances[0], at)];
      var m, first := Inside(base, defs, before, f, done, []), TokensAt(T, Flatten(instances[0].items), at) + [t];
      && FeedAll(step, m, first) == AfterEnd(T, input, base, defs, before, f, done')
      && Costs(step, m, first, InstancesIn(instances[0].items) + if |done| + 1 >= Announced(T, input, f) then 0 else 1,
               Slim(instances[0].items) && |instances[0].items| < F.MAX_FIELDS)
      && (|instances| > 1 ==>
            Costs(step, Inside(base, defs, before, f, done', []),
                  TokensAt(T, FlattenInstances(def, instances[1..]), t.End() + 1),
                  InstancesInAll(instances[1..]) - 1, SlimInstances(instances[1..])))
    ensures Costs(step, Inside(base, defs, before, f, done, []), TokensAt(T, FlattenInstances(def, instances), at),
                  InstancesInAll(instances) - 1, SlimInstances(instances))
  {
    var t, done' := EndToken(T, def, instances[0], at), done + [InstanceMap(T, def, instances[0], at)];
    var m, first := Inside(base, defs, before, f, done, []), TokensAt(T, Flatten(instances[0].items), at) + [t];
    var rest := TokensAt(T, FlattenInstances(def, instances[1..]), t.End() + 1);
    assert TokensAt(T, FlattenInstances(def, instances), at) == first + rest by {
      InstancesSplit(T, def, instances, at);
    }
    if |instances| == 1 {
      assert FlattenInstances(def, instances[1..]) == [] && first + rest == first;
    } else {
      CostsConcat(step, m, first, InstancesIn(instances[0].items) + 1,
                  Slim(instances[0].items) && |instances[0].items| < F.MAX_FIELDS,
                  Inside(base, defs, before, f, done', []), rest, InstancesInAll(instances[1..]) - 1,
                  SlimInstances(instances[1..]));
    }
  }
}
