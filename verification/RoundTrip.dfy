/** Parsing undoes building: from a list of fields or a message tree to the bytes that the builder makes
    (core/Builder.hpp:31-107, 194-219), and back through the parser (core/Parser.cpp:44-126) to what was written. */
module RoundTrip {
  import opened Orders
  import opened FixBytes
  import opened FixTags
  import opened Scanner
  import opened Encoding
  import opened GroupTree
  import B = Builder

  // ----- A built message is an encoded list of fields and a trailer -----

  const FIX_5_0: Bytes := [70, 73, 88, 46, 53, 46, 48]

  function HeaderFields(bodyLength: nat): seq<FieldText> {
    [FieldText(BEGIN_STRING, FIX_5_0), FieldText(BODY_LENGTH, Padded(bodyLength, B.BODY_LEN_WIDTH))]
  }

  /** The fields of a built message: those that were added, with the two of the header in front. */
  function AllFields(T: TagTable, fields: seq<FieldText>): seq<FieldText> {
    HeaderFields(Size(T, fields)) + fields
  }

  lemma HeaderIsEncoded(T: TagTable, n: nat)
    requires TableOk(T)
    ensures B.Header(n) == EncodeAll(T, HeaderFields(n)) && Size(T, HeaderFields(n)) == B.BODY_AT
  {
    var begin, length := HeaderFields(n)[0], HeaderFields(n)[1];
    assert Encode(T, begin) == B.BEGIN;
    assert Encode(T, length) == B.LENGTH_TAG + Padded(n, B.BODY_LEN_WIDTH) + [SOH];
    assert HeaderFields(n)[1..] == [length] && [length][1..] == [];
    assert EncodeAll(T, [length]) == Encode(T, length);
    SizeIsLength(T, HeaderFields(n));
  }

  lemma BodyIsEncoded(T: TagTable, fields: seq<FieldText>)
    requires TableOk(T)
    ensures B.Body(T, fields) == EncodeAll(T, AllFields(T, fields))
    ensures |B.Body(T, fields)| == B.BODY_AT + Size(T, fields) == Size(T, AllFields(T, fields))
  {
    HeaderIsEncoded(T, Size(T, fields));
    EncodeConcat(T, HeaderFields(Size(T, fields)), fields);
    SizeIsLength(T, AllFields(T, fields));
  }

  /** Fields that the builder can frame and the parser can tell apart again; none of them pretends to be the BodyLength
      of the header. */
  ghost predicate Sendable(T: TagTable, fields: seq<FieldText>) {
    TableOk(T) && Encodable(T, fields) && B.BodyFits(T, fields) && forall f :: f in fields ==> f.tag != BODY_LENGTH
  }

  lemma AllEncodable(T: TagTable, fields: seq<FieldText>)
    requires Sendable(T, fields)
    ensures Encodable(T, AllFields(T, fields))
  {
    PaddedDecodes(Size(T, fields), B.BODY_LEN_WIDTH);
    EncodableConcat(T, HeaderFields(Size(T, fields)), fields);
  }

  /** At the front of any bytes that begin with a message body, the tokeniser finds its fields. */
  lemma BodyIsFound(T: TagTable, fields: seq<FieldText>, rest: Bytes)
    requires Sendable(T, fields)
    ensures var all, input := AllFields(T, fields), B.Body(T, fields) + rest;
      && Finds(LexerOf(T, input), TokensAt(T, all, 0), 0) && Behind(TokensAt(T, all, 0), 0) == |B.Body(T, fields)|
      && AllReadable(T, input, all, 0)
  {
    var all, input := AllFields(T, fields), B.Body(T, fields) + rest;
    BodyIsEncoded(T, fields);
    AllEncodable(T, fields);
    TableReadsBack(T);
    assert HoldsAt(input, 0, EncodeAll(T, all));
    EncodedIsFound(T, input, all, 0);
    BehindEncoded(T, all, 0);
    EncodedIsReadable(T, input, all, 0);
  }

  // ----- The trailer -----

  const CHECK_SUM_TAG: Bytes := TEXT_10 + [EQUALS]

  lemma IndexBehindFront(front: Bytes, tail: Bytes, b: Byte)
    ensures var i, j := IndexOf(front + tail, b, |front|), IndexOf(tail, b, 0);
      i.Some? == j.Some? && (i.Some? ==> i.value == |front| + j.value)
  {
    var s := front + tail;
    var i, j := IndexOf(s, b, |front|), IndexOf(tail, b, 0);
    if i.Some? {
      assert tail[i.value - |front|] == b;
    }
    if j.Some? {
      assert s[|front| + j.value] == b;
    }
  }

  /** What is consumed of a CheckSum value and what follows it: all through the first SOH. */
  function ThroughSoh(tail: Bytes): nat {
    var j := IndexOf(tail, SOH, 0);
    if j.Some? then j.value + 1 else |tail|
  }

  /** At a CheckSum field the parser stops behind the next SOH, or at the end of the stream if there is none. */
  lemma CheckSumStops(T: TagTable, front: Bytes, tail: Bytes)
    requires TableOk(T)
    ensures var input := front + CHECK_SUM_TAG + tail;
      Lexes(LexerOf(T, input), |input|)
      && Plain(LexerOf(T, input), |input|, |front|)
          == Scan([], if SOH in tail then AtCheckSum else EndOfInput, |front| + 3 + ThroughSoh(tail))
  {
    var input := front + CHECK_SUM_TAG + tail;
    LexerOfLexes(T, input);
    assert HoldsAt(input, |front|, TEXT_10) && HoldsAt(input, |front| + 2, [EQUALS]);
    IndexBehind(input, |front|, TEXT_10, EQUALS);
    assert input[|front|..|front| + 2] == TEXT_10 == T.Text(CHECK_SUM);
    TagRoundTrip(T, CHECK_SUM);
    IndexBehindFront(front + CHECK_SUM_TAG, tail, SOH);
  }

  // ----- No overstated length -----

  lemma {:induction false} TokenTags(T: TagTable, fs: seq<FieldText>, at: nat, tag: Tag)
    requires forall f :: f in fs ==> f.tag != tag
    ensures forall t :: t in TokensAt(T, fs, at) ==> t.tag != tag
    decreases |fs|
  {
    if fs != [] {
      assert fs[0] in fs && forall f :: f in fs[1..] ==> f in fs;
      TokenTags(T, fs[1..], TokenAt(T, fs[0], at).End() + 1, tag);
    }
  }

  lemma HeaderTokens(T: TagTable, n: nat)
    requires TableOk(T)
    ensures TokensAt(T, HeaderFields(n), 0)
         == [Token(BEGIN_STRING, 2, |FIX_5_0|), Token(BODY_LENGTH, B.LENGTH_AT, B.BODY_LEN_WIDTH)]
  {
    var header := HeaderFields(n);
    assert header[1..][1..] == [];
    assert TokensAt(T, header[1..], 10) == [TokenAt(T, header[1], 10)];
  }

  lemma LengthValue(n: nat, rest: Bytes)
    requires n < Power10(B.BODY_LEN_WIDTH)
    ensures GoalOf(B.Header(n) + rest)(Token(BODY_LENGTH, B.LENGTH_AT, B.BODY_LEN_WIDTH)) == B.BODY_AT + n + 6
  {
    var input := B.Header(n) + rest;
    assert input[B.LENGTH_AT..B.LENGTH_AT + B.BODY_LEN_WIDTH] == Padded(n, B.BODY_LEN_WIDTH);
    PaddedDecodes(n, B.BODY_LEN_WIDTH);
  }

  /** The only BodyLength announces the bytes up to the trailer. */
  lemma LengthIsTrue(T: TagTable, fields: seq<FieldText>, rest: Bytes)
    requires Sendable(T, fields)
    ensures var input := B.Body(T, fields) + rest;
      forall t :: t in TokensAt(T, AllFields(T, fields), 0) && t.tag == BODY_LENGTH ==>
        GoalOf(input)(t) == |B.Body(T, fields)| + 6
  {
    var n := Size(T, fields);
    OnlyOneLength(T, fields);
    assert B.Body(T, fields) + rest == B.Header(n) + (EncodeAll(T, fields) + rest);
    LengthValue(n, EncodeAll(T, fields) + rest);
    assert |B.Body(T, fields)| == B.BODY_AT + n by {
      BodyIsEncoded(T, fields);
    }
  }

  lemma OnlyOneLength(T: TagTable, fields: seq<FieldText>)
    requires Sendable(T, fields)
    ensures forall t :: t in TokensAt(T, AllFields(T, fields), 0) && t.tag == BODY_LENGTH ==>
              t == Token(BODY_LENGTH, B.LENGTH_AT, B.BODY_LEN_WIDTH)
  {
    var header := HeaderFields(Size(T, fields));
    assert TokensAt(T, AllFields(T, fields), 0) == TokensAt(T, header, 0) + TokensAt(T, fields, B.BODY_AT) by {
      HeaderIsEncoded(T, Size(T, fields));
      TokensConcat(T, header, fields, 0);
    }
    HeaderTokens(T, Size(T, fields));
    TokenTags(T, fields, B.BODY_AT, BODY_LENGTH);
  }

  // ----- Parsing a built body with a trailer -----

  /** What the parser makes of a built body, a CheckSum tag and some bytes. */
  function ScanOf(T: TagTable, fields: seq<FieldText>, tail: Bytes): Scan {
    Scan(TokensAt(T, AllFields(T, fields), 0), if SOH in tail then AtCheckSum else EndOfInput,
         |B.Body(T, fields)| + 3 + ThroughSoh(tail))
  }

  lemma PlainOfBuilt(T: TagTable, fields: seq<FieldText>, tail: Bytes)
    requires Sendable(T, fields)
    ensures PlainScan(T, B.Body(T, fields) + CHECK_SUM_TAG + tail) == ScanOf(T, fields, tail)
  {
    var body := B.Body(T, fields);
    var input := body + CHECK_SUM_TAG + tail;
    var next, tokens := LexerOf(T, input), TokensAt(T, AllFields(T, fields), 0);
    assert Finds(next, tokens, 0) && Behind(tokens, 0) == |body| by {
      assert input == body + (CHECK_SUM_TAG + tail);
      BodyIsFound(T, fields, CHECK_SUM_TAG + tail);
    }
    CheckSumStops(T, body, tail);
    PlainOfFound(next, |input|, tokens, 0);
    assert tokens + [] == tokens;
  }

  lemma ParsedBuilt(T: TagTable, fields: seq<FieldText>, tail: Bytes)
    requires Sendable(T, fields) && ThroughSoh(tail) >= 3
    ensures var input := B.Body(T, fields) + CHECK_SUM_TAG + tail;
      && Parsed(T, input) == PlainScan(T, input) == ScanOf(T, fields, tail)
      && NotOverstated(GoalOf(input), ScanOf(T, fields, tail))
      && AllReadable(T, input, AllFields(T, fields), 0)
  {
    var body := B.Body(T, fields);
    var input := body + CHECK_SUM_TAG + tail;
    assert input == body + (CHECK_SUM_TAG + tail);
    PlainOfBuilt(T, fields, tail);
    LengthIsTrue(T, fields, CHECK_SUM_TAG + tail);
    BodyIsFound(T, fields, CHECK_SUM_TAG + tail);
    LexerOfLexes(T, input);
    PrefetchRefinesPlain(LexerOf(T, input), GoalOf(input), |input|, 0, 0);
  }

  // ----- The two forms of the trailer -----

  /** Trailers have digits only up to the final SOH of the commented form. */
  lemma TrailerParts(s: Bytes, more: Bytes)
    ensures var digits := Padded(B.CheckSumOf(s), 3);
      && AllDigits(digits)
      && B.CodedTrailer(s) == CHECK_SUM_TAG + ([ZERO] + digits)
      && B.CommentedTrailer(s) == CHECK_SUM_TAG + (digits + [SOH])
      && ThroughSoh([ZERO] + digits + more) == 4 + ThroughSoh(more) && (SOH in [ZERO] + digits + more <==> SOH in more)
      && ThroughSoh(digits + [SOH]) == 4
  {
    var digits := Padded(B.CheckSumOf(s), 3);
    PaddedDecodes(B.CheckSumOf(s), 3);
    IndexOfTail([ZERO] + digits, more);
    assert (digits + [SOH])[3] == SOH;
  }

  lemma IndexOfTail(digits: Bytes, more: Bytes)
    requires AllDigits(digits)
    ensures ThroughSoh(digits + more) == |digits| + ThroughSoh(more)
  {
    IndexBehindFront(digits, more, SOH);
    var i := IndexOf(digits + more, SOH, 0);
    forall k | 0 <= k < |digits|
      ensures (digits + more)[k] != SOH
    {
    }
    var j := IndexOf(digits + more, SOH, |digits|);
    assert i.Some? <==> j.Some?;
  }

  /** Parsing undoes building: from the bytes that the builder makes, standing alone, the parser takes exactly the
      fields of the header and those that were added, in order and each with the value written, and it takes all bytes.
      The CheckSum field, which lacks its SOH, is never completed: the end of the input stops the parser. */
  lemma ParseUndoesBuild(T: TagTable, fields: seq<FieldText>)
    requires Sendable(T, fields)
    ensures var m := B.Built(T, fields);
      && Parsed(T, m) == Scan(TokensAt(T, AllFields(T, fields), 0), EndOfInput, |m|)
      && AllReadable(T, m, AllFields(T, fields), 0)
  {
    BuiltInStream(T, fields, []);
    assert B.Built(T, fields) + [] == B.Built(T, fields);
  }

  /** In a stream the fields are the same, but the value of the CheckSum field runs on to the first SOH behind the
      message: the message is taken without bytes of what follows only if nothing follows. */
  lemma BuiltInStream(T: TagTable, fields: seq<FieldText>, more: Bytes)
    requires Sendable(T, fields)
    ensures var m := B.Built(T, fields);
      && Parsed(T, m + more) == Scan(TokensAt(T, AllFields(T, fields), 0),
                                     if SOH in more then AtCheckSum else EndOfInput,
                                     |m| + ThroughSoh(more))
      && (Parsed(T, m + more).consumed == |m| <==> more == [])
      && AllReadable(T, m + more, AllFields(T, fields), 0)
  {
    var body := B.Body(T, fields);
    TrailerParts(body, more);
    var tail := [ZERO] + Padded(B.CheckSumOf(body), 3) + more;
    assert B.Built(T, fields) + more == body + CHECK_SUM_TAG + tail;
    ParsedBuilt(T, fields, tail);
  }

  /** The message with the trailer as commented in the builder. */
  function BuiltAsCommented(T: TagTable, fields: seq<FieldText>): Bytes {
    B.Body(T, fields) + B.CommentedTrailer(B.Body(T, fields))
  }

  /** With the SOH the round trip holds as well, and the message is framed. */
  lemma CommentedRoundTrip(T: TagTable, fields: seq<FieldText>)
    requires Sendable(T, fields)
    ensures var m := BuiltAsCommented(T, fields);
      && Parsed(T, m) == PlainScan(T, m) == Scan(TokensAt(T, AllFields(T, fields), 0), AtCheckSum, |m|)
      && AllReadable(T, m, AllFields(T, fields), 0)
      && IsMessage(T, m)
  {
    var body := B.Body(T, fields);
    TrailerParts(body, []);
    var tail := Padded(B.CheckSumOf(body), 3) + [SOH];
    assert BuiltAsCommented(T, fields) == body + CHECK_SUM_TAG + tail;
    assert tail[3] == SOH;
    ParsedBuilt(T, fields, tail);
  }

  lemma CommentedInStream(T: TagTable, fields: seq<FieldText>, more: Bytes)
    requires Sendable(T, fields)
    ensures var m := BuiltAsCommented(T, fields);
      && Parsed(T, m + more) == Scan(TokensAt(T, AllFields(T, fields), 0), AtCheckSum, |m|)
      && AllReadable(T, m + more, AllFields(T, fields), 0)
  {
    var m, body := BuiltAsCommented(T, fields), B.Body(T, fields);
    assert AllReadable(T, m + more, AllFields(T, fields), 0) by {
      assert m + more == body + (B.CommentedTrailer(body) + more);
      BodyIsFound(T, fields, B.CommentedTrailer(body) + more);
    }
    CommentedRoundTrip(T, fields);
    MessageInStream(T, m, more);
  }

  /** Any number of built messages with the commented trailer, one behind the other, parse one by one, whatever
      follows. */
  lemma BuiltBackToBack(T: TagTable, messages: seq<seq<FieldText>>, bytes: seq<Bytes>, more: Bytes)
    requires T.texts != [] && |bytes| == |messages|
    requires forall i :: 0 <= i < |messages| ==>
      Sendable(T, messages[i]) && bytes[i] == BuiltAsCommented(T, messages[i])
    ensures var rs := ParsedInARow(T, Concat(bytes) + more, |bytes|);
      && |rs| == |messages|
      && forall i :: 0 <= i < |messages| ==>
           rs[i] == Scan(TokensAt(T, AllFields(T, messages[i]), 0), AtCheckSum, |bytes[i]|)
  {
    forall i | 0 <= i < |messages|
      ensures IsMessage(T, bytes[i])
      ensures PlainScan(T, bytes[i]) == Scan(TokensAt(T, AllFields(T, messages[i]), 0), AtCheckSum, |bytes[i]|)
    {
      CommentedRoundTrip(T, messages[i]);
    }
    BackToBack(T, bytes, more);
  }
}
