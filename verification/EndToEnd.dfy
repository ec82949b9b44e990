/** The builder and the parser as they run, one after the other: what the heap holds after parsing reads as the message
    that was built (core/Builder.hpp:31-107, core/Parser.cpp:14-128), and how much room that takes. */
module EndToEnd {
  import opened Orders
  import opened FixBytes
  import opened FixTags
  import opened Scanner
  import opened Encoding
  import opened GroupTree
  import opened FieldStore
  import opened HeapTrees
  import opened Rooms
  import opened RoundTrip
  import opened MessageTrees
  import B = Builder
  import P = Parser

  // ----- The room a message needs -----

  lemma {:induction false} InstancesConcat(a: seq<Item>, b: seq<Item>)
    ensures InstancesIn(a + b) == InstancesIn(a) + InstancesIn(b)
    ensures Slim(a + b) <==> Slim(a) && Slim(b)
    decreases |a|
  {
    if a == [] {
      assert a + b == b;
    } else {
      assert (a + b)[1..] == a[1..] + b;
      InstancesConcat(a[1..], b);
    }
  }

  lemma PlainItem(tag: Tag, value: Bytes)
    ensures InstancesIn([PlainField(tag, value)]) == 0 && Slim([PlainField(tag, value)])
  {
    assert [PlainField(tag, value)][1..] == [];
  }

  lemma InstancesOfMessage(m: Message)
    ensures InstancesIn(m.Items()) == InstancesIn(m.front) + InstancesIn(m.body)
    ensures Slim(m.Items()) <==> Slim(m.front) && Slim(m.body)
  {
    var item := PlainField(MSG_TYPE, m.msgType);
    PlainItem(MSG_TYPE, m.msgType);
    InstancesConcat(m.front, [item]);
    InstancesConcat(m.front + [item], m.body);
  }

  /** No map of the message gets more fields than it takes. */
  ghost predicate SlimMessage(m: Message) {
    Slim(m.Items()) && |m.Items()| <= MAX_FIELDS
  }

  lemma FrontCost(T: TagTable, groups: GroupDefs, input: Bytes, m: Message)
    requires T.texts != [] && AllReadable(T, input, Flatten(m.front), 0) && Legal(T, [], m.front, None, {})
    ensures Costs(StepperOf(T, groups, input), START, TokensAt(T, Flatten(m.front), 0), InstancesIn(m.front),
                  HavePlace(m.front, 0))
  {
    MachineMoves(T, groups, input);
    assert TagsOf([]) == {};
    ItemsCost(T, input, StepperOf(T, groups, input), START, m.front, 0, None);
  }

  lemma MsgTypeCost(T: TagTable, groups: GroupDefs, input: Bytes, m: Message, defs: seq<GroupDef>)
    requires T.texts != [] && Parseable(T, groups, m, defs)
    requires Readable(T, input, FieldText(MSG_TYPE, m.msgType), Size(T, Flatten(m.front)))
    ensures Costs(StepperOf(T, groups, input), BehindFront(T, m.front), [MsgTypeToken(T, m.front, m.msgType)], 0,
                  |m.front| < MAX_FIELDS)
  {
    var t := MsgTypeToken(T, m.front, m.msgType);
    MsgTypeFed(T, groups, input, m.front, m.msgType, defs);
    MapFieldsSize(T, m.front, 0);
    LegalTags(T, [], m.front, None, {});
    FieldTags(T, m.front, 0);
    NewFieldFits(BehindFront(T, m.front), t);
    CostOne(StepperOf(T, groups, input), BehindFront(T, m.front), t);
  }

  lemma BodyCost(T: TagTable, input: Bytes, step: Stepper, m: Message, defs: seq<GroupDef>)
    requires Moves(T, input, step)
    requires Feedable(T, input, AtBody(T, m, defs), m.body, MsgTypeToken(T, m.front, m.msgType).End() + 1, None)
    ensures Costs(step, AtBody(T, m, defs), BodyTokens(T, m), InstancesIn(m.body), HavePlace(m.body, |m.front| + 1))
  {
    MapFieldsSize(T, m.front, 0);
    ItemsCost(T, input, step, AtBody(T, m, defs), m.body, MsgTypeToken(T, m.front, m.msgType).End() + 1, None);
  }

  /** Parsing the fields of a legal message opens exactly its group instances, and finds a place for every field if and
      only if no map gets too many. */
  lemma MessageCost(T: TagTable, groups: GroupDefs, input: Bytes, m: Message, defs: seq<GroupDef>)
    requires T.texts != [] && Parseable(T, groups, m, defs) && AllReadable(T, input, Flatten(m.Items()), 0)
    ensures Costs(StepperOf(T, groups, input), START, TokensAt(T, Flatten(m.Items()), 0), InstancesIn(m.Items()),
                  SlimMessage(m))
  {
    var step, t := StepperOf(T, groups, input), MsgTypeToken(T, m.front, m.msgType);
    MessageSplits(T, input, m);
    FrontCost(T, groups, input, m);
    FrontFed(T, groups, input, m.front);
    MsgTypeCost(T, groups, input, m, defs);
    MsgTypeFed(T, groups, input, m.front, m.msgType, defs);
    MachineMoves(T, groups, input);
    BodyFeedable(T, groups, input, m, defs);
    BodyCost(T, input, step, m, defs);
    InstancesOfMessage(m);
    ThreeCosts(step, START, TokensAt(T, Flatten(m.front), 0), InstancesIn(m.front), HavePlace(m.front, 0),
               BehindFront(T, m.front), t, |m.front| < MAX_FIELDS, AtBody(T, m, defs),
               BodyTokens(T, m), InstancesIn(m.body), HavePlace(m.body, |m.front| + 1));
  }

  lemma ThreeCosts(step: Stepper, m: Machine, a: seq<Token>, n: nat, x: bool, m': Machine, t: Token, y: bool,
                   m'': Machine, b: seq<Token>, k: nat, z: bool)
    requires Costs(step, m, a, n, x) && FeedAll(step, m, a) == m'
    requires Costs(step, m', [t], 0, y) && step(m', t) == m''
    requires Costs(step, m'', b, k, z)
    ensures Costs(step, m, a + [t] + b, n + k, x && y && z)
  {
    CostsConcat(step, m, a, n, x, m', [t], 0, y);
    FeedOne(step, m', t);
    FeedConcat(step, m, a, [t]);
    CostsConcat(step, m, a + [t], n, x && y, m'', b, k, z);
  }

  /** There is enough room to parse what the builder makes of the message. */
  ghost predicate Affordable(T: TagTable, groups: GroupDefs, m: Message, msg: P.FixMessage)
    requires T.texts != []
  {
    P.Affords(P.SettingFor(T, groups, B.Built(T, Flatten(m.Items()))), msg)
  }

  /** The buffer takes the bytes of the message, the root map its items and the two fields of the header, each other map
      the items of its instance and the end field, and the arena a map for each instance. */
  ghost predicate Fits(T: TagTable, m: Message, msg: P.FixMessage) {
    && |B.Built(T, Flatten(m.Items()))| <= msg.msgBytes.Length <= 0x1_0000
    && |m.Items()| + 2 <= MAX_FIELDS && Slim(m.Items())
    && P.Needs(msg, InstancesIn(m.Items())) <= msg.store.buffer.capacity
  }

  /** What it costs to parse the fields of a message with its header. */
  lemma AllFieldsCost(T: TagTable, groups: GroupDefs, input: Bytes, m: Message)
    requires T.texts != [] && LegalMessage(T, groups, m) && AllReadable(T, input, AllFields(T, Flatten(m.Items())), 0)
    ensures Costs(StepperOf(T, groups, input), START, TokensAt(T, AllFields(T, Flatten(m.Items())), 0),
                  InstancesIn(m.Items()), |m.Items()| + 2 <= MAX_FIELDS && Slim(m.Items()))
  {
    HeaderInFront(T, m);
    var defs := HeaderIsParseable(T, groups, m);
    MessageCost(T, groups, input, WithHeader(T, m), defs);
    HeaderAddsNoInstance(T, m);
  }

  /** A built message can be parsed without exhausting anything exactly when it fits. */
  lemma FitsIsAffordable(T: TagTable, groups: GroupDefs, m: Message, msg: P.FixMessage)
    requires Sendable(T, Flatten(m.Items())) && LegalMessage(T, groups, m)
    ensures Affordable(T, groups, m, msg) <==> Fits(T, m, msg)
  {
    ParseUndoesBuild(T, Flatten(m.Items()));
    AllFieldsCost(T, groups, B.Built(T, Flatten(m.Items())), m);
  }

  lemma HeaderAddsNoInstance(T: TagTable, m: Message)
    ensures InstancesIn(WithHeader(T, m).Items()) == InstancesIn(m.Items())
    ensures SlimMessage(WithHeader(T, m)) <==> |m.Items()| + 2 <= MAX_FIELDS && Slim(m.Items())
  {
    var h := HeaderItems(T, m.Items());
    HeaderInFront(T, m);
    assert h == [h[0]] + [h[1]];
    InstancesConcat([h[0]], [h[1]]);
    PlainItem(h[0].tag, h[0].value);
    PlainItem(h[1].tag, h[1].value);
    InstancesConcat(h, m.Items());
  }

  // ----- The sizes in use -----

  const MAP_SIZE := 1568
  const DEFAULT_MESSAGE_SIZE := 2048

  ghost predicate OfDefaultSize(msg: P.FixMessage) {
    && msg.store.mapSize == MAP_SIZE && msg.store.maxMessageSize == msg.msgBytes.Length == DEFAULT_MESSAGE_SIZE
    && msg.store.buffer.capacity == 4 * DEFAULT_MESSAGE_SIZE
  }

  /** A FixMessage of the default size takes a message exactly when its bytes fit the buffer, no map gets more than 64
      fields, and there are no more than two group instances; */
  lemma DefaultSizeTakes(T: TagTable, groups: GroupDefs, m: Message, msg: P.FixMessage)
    requires Sendable(T, Flatten(m.Items())) && LegalMessage(T, groups, m) && OfDefaultSize(msg)
    ensures Affordable(T, groups, m, msg) <==>
      && |B.Built(T, Flatten(m.Items()))| <= 2048 && |m.Items()| + 2 <= 64 && Slim(m.Items())
      && InstancesIn(m.Items()) <= 2
  {
    FitsIsAffordable(T, groups, m, msg);
  }

  /** so it takes every message without groups that fits its buffer and has no more than 64 fields. */
  lemma DefaultSizeTakesPlainMessages(T: TagTable, groups: GroupDefs, m: Message, msg: P.FixMessage)
    requires Sendable(T, Flatten(m.Items())) && LegalMessage(T, groups, m) && OfDefaultSize(msg)
    requires forall item :: item in m.Items() ==> item.PlainField?
    ensures Affordable(T, groups, m, msg) <==> |B.Built(T, Flatten(m.Items()))| <= 2048 && |m.Items()| + 2 <= 64
  {
    WithoutGroups(m.Items());
    DefaultSizeTakes(T, groups, m, msg);
  }

  lemma {:induction false} WithoutGroups(items: seq<Item>)
    requires forall item :: item in items ==> item.PlainField?
    ensures InstancesIn(items) == 0 && Slim(items)
    decreases |items|
  {
    if items != [] {
      assert items[0] in items && forall item :: item in items[1..] ==> item in items;
      WithoutGroups(items[1..]);
    }
  }

  // ----- There and back -----

  /** The fields of the message are written in order, the message is built, and its bytes are parsed: the field maps in
      the arena, with their chains of group instances, read as the message with its header in front. */
  method SendAndReceive(b: B.Builder, msg: P.FixMessage, groups: GroupDefs, m: Message) returns (ok: bool, bytes: Bytes)
    requires b.Valid() && b.maxMessageSize >= B.BODY_AT + B.CHECKSUM_WIDTH && msg.Valid() && msg.msgBytes != b.message
    requires Sendable(b.T, Flatten(m.Items())) && LegalMessage(b.T, groups, m) && Fits(b.T, m, msg)
    modifies b, b.message, msg.msgBytes, msg.store, msg.store.buffer
    ensures ok <==> B.BODY_AT + Size(b.T, Flatten(m.Items())) + 2 * B.CHECKSUM_WIDTH <= b.maxMessageSize
    ensures ok ==> msg.Valid() && bytes == B.Built(b.T, Flatten(m.Items()))
    ensures ok ==>
      ReadFields(SourceOf(bytes), Tree(msg.store.View(), 0).fields) == HeaderItems(b.T, m.Items()) + m.Items()
  {
    FitsIsAffordable(b.T, groups, m, msg);
    ok, bytes := B.BuildMessage(b, Flatten(m.Items()));
    if ok {
      var input := new P.Stream(bytes);
      assert P.Rest(input, 0) == bytes;
      P.Parse(b.T, input, msg, groups);
      RoundTripAlone(b.T, groups, m);
    }
  }

  lemma RoundTripAlone(T: TagTable, groups: GroupDefs, m: Message)
    requires Sendable(T, Flatten(m.Items())) && LegalMessage(T, groups, m)
    ensures ReadsAs(T, groups, B.Built(T, Flatten(m.Items())), m)
  {
    MessageRoundTrip(T, groups, m, []);
    assert B.Built(T, Flatten(m.Items())) + [] == B.Built(T, Flatten(m.Items()));
  }
}
