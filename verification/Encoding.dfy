/** Encoded fields, and that the tokeniser finds them again (writeTag and addField in core/Builder.hpp:31-53 and
    147-152, against the scanning loops of core/Parser.cpp:44-74). */
module Encoding {
  import opened Orders
  import opened FixBytes
  import opened FixTags
  import opened Scanner
  import opened Sequences

  datatype FieldText = FieldText(tag: Tag, value: Bytes)

  function Encode(T: TagTable, f: FieldText): Bytes {
    T.Text(f.tag) + [EQUALS] + f.value + [SOH]
  }

  function EncodeAll(T: TagTable, fs: seq<FieldText>): Bytes {
    if fs == [] then [] else Encode(T, fs[0]) + EncodeAll(T, fs[1..])
  }

  /** Fields that can be told apart again: known tags other than CheckSum, and no SOH in a value. */
  ghost predicate Encodable(T: TagTable, fs: seq<FieldText>) {
    forall f :: f in fs ==> T.IsTag(f.tag) && SOH !in f.value && f.tag != CHECK_SUM
  }

  /** Where the value of an encoded field lies when the field starts at `at`. */
  function TokenAt(T: TagTable, f: FieldText, at: nat): Token {
    Token(f.tag, at + |T.Text(f.tag)| + 1, |f.value|)
  }

  function TokensAt(T: TagTable, fs: seq<FieldText>, at: nat): seq<Token> {
    if fs == [] then [] else [TokenAt(T, fs[0], at)] + TokensAt(T, fs[1..], TokenAt(T, fs[0], at).End() + 1)
  }

  /** The input holds these bytes from `at` on. */
  ghost predicate HoldsAt(input: Bytes, at: nat, part: Bytes) {
    at + |part| <= |input| && input[at..at + |part|] == part
  }

  lemma HoldsAtSplit(input: Bytes, at: nat, a: Bytes, b: Bytes)
    ensures HoldsAt(input, at, a + b) <==> HoldsAt(input, at, a) && HoldsAt(input, at + |a|, b)
  {
    if at + |a| + |b| <= |input| {
      assert input[at..at + |a| + |b|] == input[at..at + |a|] + input[at + |a|..at + |a| + |b|];
      if input[at..at + |a| + |b|] == a + b {
        assert (a + b)[..|a|] == a && (a + b)[|a|..] == b;
        assert input[at..at + |a| + |b|][..|a|] == input[at..at + |a|];
        assert input[at..at + |a| + |b|][|a|..] == input[at + |a|..at + |a| + |b|];
      }
    }
  }

  /** The first b at or after `at` is the one right behind a part that holds none. */
  lemma {:induction false} IndexBehind(input: Bytes, at: nat, part: Bytes, b: Byte)
    requires HoldsAt(input, at, part) && HoldsAt(input, at + |part|, [b]) && b !in part
    ensures IndexOf(input, b, at) == Some(at + |part|)
    decreases |part|
  {
    if part == [] {
      assert input[at..at + 1][0] == input[at];
    } else {
      assert part == [part[0]] + part[1..];
      HoldsAtSplit(input, at, [part[0]], part[1..]);
      assert input[at..at + 1][0] == input[at] == part[0];
      IndexBehind(input, at + 1, part[1..], b);
    }
  }

  /** The parts of an encoded field, one behind the other. */
  lemma FieldParts(input: Bytes, text: Bytes, value: Bytes, at: nat)
    requires HoldsAt(input, at, text + [EQUALS] + value + [SOH])
    ensures var e := at + |text|;
      && HoldsAt(input, at, text) && HoldsAt(input, e, [EQUALS])
      && HoldsAt(input, e + 1, value) && HoldsAt(input, e + 1 + |value|, [SOH])
  {
    HoldsAtSplit(input, at, text + [EQUALS] + value, [SOH]);
    HoldsAtSplit(input, at, text + [EQUALS], value);
    HoldsAtSplit(input, at, text, [EQUALS]);
  }

  lemma FieldIndices(input: Bytes, text: Bytes, value: Bytes, at: nat)
    requires HoldsAt(input, at, text + [EQUALS] + value + [SOH]) && EQUALS !in text && SOH !in value
    ensures var e := at + |text|;
      && IndexOf(input, EQUALS, at) == Some(e) && input[at..e] == text
      && IndexOf(input, SOH, e + 1) == Some(e + 1 + |value|) && input[e + 1..e + 1 + |value|] == value
  {
    FieldParts(input, text, value, at);
    IndexBehind(input, at, text, EQUALS);
    IndexBehind(input, at + |text| + 1, value, SOH);
  }

  /** Where an encoded field stands, the tokeniser finds it. */
  lemma TokenFound(T: TagTable, input: Bytes, f: FieldText, at: nat)
    requires ReadsBack(T) && T.IsTag(f.tag) && SOH !in f.value
    requires HoldsAt(input, at, Encode(T, f))
    ensures NextToken(T, input, at) == Some(TokenAt(T, f, at))
    ensures TokenAt(T, f, at).End() < |input| && ValueOf(input, TokenAt(T, f, at)) == f.value
  {
    assert TextReadsBack(T, f.tag);
    FieldIndices(input, T.Text(f.tag), f.value, at);
  }

  lemma EncodableTail(T: TagTable, fs: seq<FieldText>)
    requires Encodable(T, fs) && fs != []
    ensures Encodable(T, fs[1..])
    ensures T.IsTag(fs[0].tag) && SOH !in fs[0].value && fs[0].tag != CHECK_SUM
  {
    assert fs[0] in fs && forall f :: f in fs[1..] ==> f in fs;
  }

  lemma HeadFound(T: TagTable, input: Bytes, f: FieldText, rest: Bytes, at: nat)
    requires ReadsBack(T) && T.IsTag(f.tag) && SOH !in f.value
    requires HoldsAt(input, at, Encode(T, f) + rest)
    ensures LexerOf(T, input)(at) == Some(TokenAt(T, f, at))
    ensures HoldsAt(input, TokenAt(T, f, at).End() + 1, rest)
  {
    HoldsAtSplit(input, at, Encode(T, f), rest);
    TokenFound(T, input, f, at);
  }

  /** The lexer finds each of these fields where it was encoded. */
  ghost predicate Laid(next: Lexer, T: TagTable, fs: seq<FieldText>, at: nat) {
    fs != [] ==> next(at) == Some(TokenAt(T, fs[0], at)) && Laid(next, T, fs[1..], TokenAt(T, fs[0], at).End() + 1)
  }

  /** In this input the tokeniser finds any encoded field that stands in front of anything. */
  ghost predicate FindsFields(T: TagTable, input: Bytes) {
    T.texts != [] && forall f: FieldText, rest: Bytes, at: nat :: FindsField(T, input, f, rest, at)
  }

  ghost predicate FindsField(T: TagTable, input: Bytes, f: FieldText, rest: Bytes, at: nat)
    requires T.texts != []
  {
    T.IsTag(f.tag) && SOH !in f.value && HoldsAt(input, at, Encode(T, f) + rest) ==>
      LexerOf(T, input)(at) == Some(TokenAt(T, f, at)) && HoldsAt(input, TokenAt(T, f, at).End() + 1, rest)
  }

  lemma AnyFieldIsFound(T: TagTable, input: Bytes)
    requires ReadsBack(T)
    ensures FindsFields(T, input)
  {
    forall f: FieldText, rest: Bytes, at: nat
      ensures FindsField(T, input, f, rest, at)
    {
      if T.IsTag(f.tag) && SOH !in f.value && HoldsAt(input, at, Encode(T, f) + rest) {
        HeadFound(T, input, f, rest, at);
      }
    }
  }

  /** The fields from fs on stand in the input from `at` on. */
  ghost predicate Stands(T: TagTable, input: Bytes, fs: seq<FieldText>, at: nat) {
    Encodable(T, fs) && HoldsAt(input, at, EncodeAll(T, fs))
  }

  lemma LaidHead(T: TagTable, input: Bytes, fs: seq<FieldText>, at: nat)
    requires FindsFields(T, input) && Stands(T, input, fs, at) && fs != []
    ensures LexerOf(T, input)(at) == Some(TokenAt(T, fs[0], at))
    ensures Stands(T, input, fs[1..], TokenAt(T, fs[0], at).End() + 1)
  {
    EncodableTail(T, fs);
    assert FindsField(T, input, fs[0], EncodeAll(T, fs[1..]), at);
  }

  lemma {:induction false} EncodedIsLaid(T: TagTable, input: Bytes, fs: seq<FieldText>, at: nat)
    requires FindsFields(T, input) && Stands(T, input, fs, at)
    ensures Laid(LexerOf(T, input), T, fs, at)
    decreases |fs|
  {
    if fs != [] {
      var next := TokenAt(T, fs[0], at).End() + 1;
      assert Stands(T, input, fs[1..], next) by {
        LaidHead(T, input, fs, at);
      }
      EncodedIsLaid(T, input, fs[1..], next);
      LaidHead(T, input, fs, at);
    }
  }

  lemma {:induction false} LaidIsFound(next: Lexer, T: TagTable, fs: seq<FieldText>, at: nat)
    requires Encodable(T, fs) && Laid(next, T, fs, at)
    ensures Finds(next, TokensAt(T, fs, at), at)
    decreases |fs|
  {
    if fs != [] {
      EncodableTail(T, fs);
      var at' := TokenAt(T, fs[0], at).End() + 1;
      LaidIsFound(next, T, fs[1..], at');
      FoundCons(next, TokenAt(T, fs[0], at), TokensAt(T, fs[1..], at'), at);
    }
  }

  /** Encoded fields are found one behind the other. */
  lemma EncodedIsFound(T: TagTable, input: Bytes, fs: seq<FieldText>, at: nat)
    requires ReadsBack(T) && Encodable(T, fs) && HoldsAt(input, at, EncodeAll(T, fs))
    ensures Finds(LexerOf(T, input), TokensAt(T, fs, at), at)
  {
    AnyFieldIsFound(T, input);
    EncodedIsLaid(T, input, fs, at);
    LaidIsFound(LexerOf(T, input), T, fs, at);
  }

  lemma FoundCons(next: Lexer, t: Token, rest: seq<Token>, at: nat)
    requires next(at) == Some(t) && t.tag != CHECK_SUM && Finds(next, rest, t.End() + 1)
    ensures Finds(next, [t] + rest, at)
  {
    assert ([t] + rest)[1..] == rest;
  }

  // ----- Concatenation -----

  function Size(T: TagTable, fs: seq<FieldText>): nat {
    if fs == [] then 0 else |Encode(T, fs[0])| + Size(T, fs[1..])
  }

  lemma {:induction false} SizeIsLength(T: TagTable, fs: seq<FieldText>)
    ensures |EncodeAll(T, fs)| == Size(T, fs)
  {
    if fs != [] {
      SizeIsLength(T, fs[1..]);
    }
  }

  lemma {:induction false} BehindEncoded(T: TagTable, fs: seq<FieldText>, at: nat)
    ensures Behind(TokensAt(T, fs, at), at) == at + Size(T, fs)
    decreases |fs|
  {
    if fs != [] {
      BehindEncoded(T, fs[1..], TokenAt(T, fs[0], at).End() + 1);
      assert TokensAt(T, fs, at)[1..] == TokensAt(T, fs[1..], TokenAt(T, fs[0], at).End() + 1);
    }
  }

  lemma EncodableConcat(T: TagTable, a: seq<FieldText>, b: seq<FieldText>)
    ensures Encodable(T, a + b) <==> Encodable(T, a) && Encodable(T, b)
  {
    assert forall f :: f in a + b <==> f in a || f in b;
  }

  lemma {:induction false} EncodeConcat(T: TagTable, a: seq<FieldText>, b: seq<FieldText>)
    ensures EncodeAll(T, a + b) == EncodeAll(T, a) + EncodeAll(T, b)
    ensures Size(T, a + b) == Size(T, a) + Size(T, b)
  {
    if a == [] {
      assert a + b == b;
    } else {
      assert (a + b)[1..] == a[1..] + b;
      EncodeConcat(T, a[1..], b);
      Associates(Encode(T, a[0]), EncodeAll(T, a[1..]), EncodeAll(T, b));
    }
  }

  lemma {:induction false} TokensConcat(T: TagTable, a: seq<FieldText>, b: seq<FieldText>, at: nat)
    ensures TokensAt(T, a + b, at) == TokensAt(T, a, at) + TokensAt(T, b, at + Size(T, a))
    decreases |a|
  {
    if a == [] {
      assert a + b == b;
    } else {
      assert (a + b)[1..] == a[1..] + b;
      TokensConcat(T, a[1..], b, TokenAt(T, a[0], at).End() + 1);
      Associates([TokenAt(T, a[0], at)], TokensAt(T, a[1..], TokenAt(T, a[0], at).End() + 1),
                 TokensAt(T, b, at + Size(T, a)));
    }
  }

  // ----- Values are read back -----

  /** The value of a field can be read where the field was encoded. */
  ghost predicate Readable(T: TagTable, input: Bytes, f: FieldText, at: nat) {
    TokenAt(T, f, at).End() < |input| && ValueOf(input, TokenAt(T, f, at)) == f.value
  }

  /** Something about a field and the position where it is encoded. */
  type Check = (FieldText, nat) -> bool

  ghost predicate Everywhere(ok: Check, T: TagTable, fs: seq<FieldText>, at: nat) {
    fs != [] ==> ok(fs[0], at) && Everywhere(ok, T, fs[1..], TokenAt(T, fs[0], at).End() + 1)
  }

  ghost function ReadableIn(T: TagTable, input: Bytes): Check {
    (f: FieldText, at: nat) => Readable(T, input, f, at)
  }

  ghost predicate AllReadable(T: TagTable, input: Bytes, fs: seq<FieldText>, at: nat) {
    Everywhere(ReadableIn(T, input), T, fs, at)
  }

  lemma ReadableHead(T: TagTable, input: Bytes, f: FieldText, rest: Bytes, at: nat)
    requires HoldsAt(input, at, Encode(T, f) + rest)
    ensures Readable(T, input, f, at) && HoldsAt(input, TokenAt(T, f, at).End() + 1, rest)
  {
    HoldsAtSplit(input, at, Encode(T, f), rest);
    FieldParts(input, T.Text(f.tag), f.value, at);
  }

  lemma {:induction false} EncodedIsReadable(T: TagTable, input: Bytes, fs: seq<FieldText>, at: nat)
    requires HoldsAt(input, at, EncodeAll(T, fs))
    ensures AllReadable(T, input, fs, at)
    decreases |fs|
  {
    if fs != [] {
      ReadableHead(T, input, fs[0], EncodeAll(T, fs[1..]), at);
      EncodedIsReadable(T, input, fs[1..], TokenAt(T, fs[0], at).End() + 1);
    }
  }

  lemma {:induction false} EverywhereConcat(ok: Check, T: TagTable, a: seq<FieldText>, b: seq<FieldText>, at: nat)
    ensures Everywhere(ok, T, a + b, at) <==> Everywhere(ok, T, a, at) && Everywhere(ok, T, b, at + Size(T, a))
    decreases |a|
  {
    if a == [] {
      assert a + b == b;
    } else {
      var behind := TokenAt(T, a[0], at).End() + 1;
      assert (a + b)[0] == a[0] && (a + b)[1..] == a[1..] + b;
      EverywhereConcat(ok, T, a[1..], b, behind);
      assert at + Size(T, a) == behind + Size(T, a[1..]);
    }
  }

  /** Everything about the encoding of a list of fields splits with the list. */
  lemma Parts(T: TagTable, ok: Check, a: seq<FieldText>, b: seq<FieldText>, at: nat)
    ensures Size(T, a + b) == Size(T, a) + Size(T, b)
    ensures TokensAt(T, a + b, at) == TokensAt(T, a, at) + TokensAt(T, b, at + Size(T, a))
    ensures Everywhere(ok, T, a + b, at) <==> Everywhere(ok, T, a, at) && Everywhere(ok, T, b, at + Size(T, a))
  {
    EncodeConcat(T, a, b);
    TokensConcat(T, a, b, at);
    EverywhereConcat(ok, T, a, b, at);
  }

  /** A field in front of a list. */
  lemma Front(T: TagTable, ok: Check, f: FieldText, rest: seq<FieldText>, at: nat)
    ensures Size(T, [f] + rest) == |Encode(T, f)| + Size(T, rest)
    ensures var t := TokenAt(T, f, at);
      && TokensAt(T, [f] + rest, at) == [t] + TokensAt(T, rest, t.End() + 1)
      && (Everywhere(ok, T, [f] + rest, at) <==> ok(f, at) && Everywhere(ok, T, rest, t.End() + 1))
  {
    assert ([f] + rest)[0] == f && ([f] + rest)[1..] == rest;
  }

  /** A single field. */
  lemma Single(T: TagTable, ok: Check, f: FieldText, at: nat)
    ensures Size(T, [f]) == |Encode(T, f)| && TokensAt(T, [f], at) == [TokenAt(T, f, at)]
    ensures Everywhere(ok, T, [f], at) <==> ok(f, at)
  {
    assert [f] == [f] + [];
    Front(T, ok, f, [], at);
  }

  lemma MiddleEverywhere(T: TagTable, ok: Check, a: seq<FieldText>, f: FieldText, b: seq<FieldText>, at: nat)
    requires Everywhere(ok, T, a + [f] + b, at)
    ensures Everywhere(ok, T, a, at) && ok(f, at + Size(T, a))
    ensures Everywhere(ok, T, b, TokenAt(T, f, at + Size(T, a)).End() + 1)
  {
    Associates(a, [f], b);
    EverywhereConcat(ok, T, a, [f] + b, at);
    Front(T, ok, f, b, at + Size(T, a));
  }

  /** A list, a field and another list. */
  lemma Middle(T: TagTable, ok: Check, a: seq<FieldText>, f: FieldText, b: seq<FieldText>, at: nat)
    ensures var t := TokenAt(T, f, at + Size(T, a));
      && Size(T, a + [f] + b) == Size(T, a) + |Encode(T, f)| + Size(T, b)
      && TokensAt(T, a + [f] + b, at) == TokensAt(T, a, at) + [t] + TokensAt(T, b, t.End() + 1)
      && (Everywhere(ok, T, a + [f] + b, at) <==>
            Everywhere(ok, T, a, at) && ok(f, at + Size(T, a)) && Everywhere(ok, T, b, t.End() + 1))
  {
    var t := TokenAt(T, f, at + Size(T, a));
    Associates(a, [f], b);
    Parts(T, ok, a, [f] + b, at);
    Front(T, ok, f, b, at + Size(T, a));
    Associates(TokensAt(T, a, at), [t], TokensAt(T, b, t.End() + 1));
  }
}
