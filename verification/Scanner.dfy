/** From bytes to fields (core/Parser.cpp:44-95): what the tokenising loop of FixMessage::parse finds and how much of
    the stream it consumes, with the bulk read it does at BodyLength and without it. */
module Scanner {
  import opened Orders
  import opened FixBytes
  import opened FixTags
  import opened Sequences

  /** A field as the parser stores it: where in the buffer its value is. */
  datatype Token = Token(tag: Tag, offset: nat, length: nat) {
    /** The position of the SOH behind the value. */
    function End(): nat {
      offset + length
    }
  }

  /** First position of b at or after `from`. */
  function IndexOf(s: Bytes, b: Byte, from: nat): (r: Option<nat>)
    requires from <= |s|
    ensures r.Some? ==> from <= r.value < |s| && s[r.value] == b
    ensures forall i :: from <= i < (if r.Some? then r.value else |s|) ==> s[i] != b
    decreases |s| - from
  {
    if from == |s| then None
    else if s[from] == b then Some(from)
    else IndexOf(s, b, from + 1)
  }

  /** The field that begins at `start`, if the input holds all of it up to its SOH. */
  function NextToken(T: TagTable, input: Bytes, start: nat): (r: Option<Token>)
    requires T.texts != [] && start <= |input|
    ensures r.Some? ==> start < r.value.offset && r.value.End() < |input|
  {
    var e := IndexOf(input, EQUALS, start);
    if e.None? then None
    else
      var v := IndexOf(input, SOH, e.value + 1);
      if v.None? then None
      else Some(Token(TagOf(T, input[start..e.value]), e.value + 1, v.value - (e.value + 1)))
  }

  /** A field by its delimiters: its tag is what the table makes of the bytes up to the first equals sign, its value the
      bytes from there up to the first SOH. */
  ghost predicate IsFieldAt(T: TagTable, input: Bytes, start: nat, t: Token)
    requires T.texts != []
  {
    && start < t.offset && t.End() < |input|
    && input[t.offset - 1] == EQUALS && EQUALS !in input[start..t.offset - 1]
    && input[t.End()] == SOH && SOH !in input[t.offset..t.End()]
    && t.tag == TagOf(T, input[start..t.offset - 1])
  }

  /** The scanning loops find a field exactly where there is one, and just that one. */
  lemma NextTokenIsField(T: TagTable, input: Bytes, start: nat, t: Token)
    requires T.texts != [] && start <= |input|
    ensures NextToken(T, input, start) == Some(t) <==> IsFieldAt(T, input, start, t)
  {
    var e := IndexOf(input, EQUALS, start);
    if IsFieldAt(T, input, start, t) {
      FirstIndex(input, EQUALS, start, t.offset - 1);
      FirstIndex(input, SOH, t.offset, t.End());
    }
  }

  lemma FirstIndex(s: Bytes, b: Byte, from: nat, at: nat)
    requires from <= at < |s| && s[at] == b && b !in s[from..at]
    ensures IndexOf(s, b, from) == Some(at)
  {
    forall i | from <= i < at
      ensures s[i] != b
    {
      assert s[i] == s[from..at][i - from];
    }
  }

  function ValueOf(input: Bytes, t: Token): Bytes
    requires t.End() <= |input|
  {
    input[t.offset..t.End()]
  }

  /** The field that begins at a position, for a given input. */
  type Lexer = nat -> Option<Token>

  function LexerOf(T: TagTable, input: Bytes): Lexer
    requires T.texts != []
  {
    (i: nat) => if i <= |input| then NextToken(T, input, i) else None
  }

  /** How far into the stream the bulk read at a BodyLength field wants to get: seven bytes past the announced body,
      counted from the SOH of the field. */
  type Goal = Token -> int

  function GoalOf(input: Bytes): Goal {
    (t: Token) => if t.End() <= |input| then t.End() + ParseSigned(ValueOf(input, t)) + 7 else 0
  }

  /** A lexer for an input of a given size: fields lie behind where they are looked for and inside the input. */
  ghost predicate Lexes(next: Lexer, size: nat) {
    forall i: nat :: next(i).Some? ==> i < next(i).value.offset && next(i).value.End() < size
  }

  lemma LexerOfLexes(T: TagTable, input: Bytes)
    requires T.texts != []
    ensures Lexes(LexerOf(T, input), |input|)
  {
    forall i: nat | LexerOf(T, input)(i).Some?
      ensures i < LexerOf(T, input)(i).value.offset && LexerOf(T, input)(i).value.End() < |input|
    {
      assert LexerOf(T, input)(i) == NextToken(T, input, i);
    }
  }

  /** Why the parser returned: the input ended, the CheckSum field was reached, or the bulk read came up short. */
  datatype Stop = EndOfInput | AtCheckSum | ShortRead

  /** The fields found before returning, and the number of bytes taken from the stream. */
  datatype Scan = Scan(tokens: seq<Token>, stop: Stop, consumed: nat)

  function Cons(t: Token, rest: Scan): Scan {
    rest.(tokens := [t] + rest.tokens)
  }

  /** The parser without the bulk read: it takes one byte at a time, when it needs it. */
  ghost function Plain(next: Lexer, size: nat, start: nat): (r: Scan)
    requires Lexes(next, size) && start <= size
    ensures start <= r.consumed <= size && r.stop != ShortRead
    decreases size - start
  {
    if next(start).None? then Scan([], EndOfInput, size)
    else
      var t := next(start).value;
      if t.tag == CHECK_SUM then Scan([], AtCheckSum, t.End() + 1)
      else Cons(t, Plain(next, size, t.End() + 1))
  }

  /** From `at` on the lexer finds these fields one behind the other, and the CheckSum field is not among them. */
  ghost predicate Finds(next: Lexer, tokens: seq<Token>, at: nat) {
    tokens != [] ==>
      && next(at) == Some(tokens[0]) && tokens[0].tag != CHECK_SUM
      && Finds(next, tokens[1..], tokens[0].End() + 1)
  }

  /** Where the scan stands behind these fields. */
  function Behind(tokens: seq<Token>, at: nat): nat {
    if tokens == [] then at else Behind(tokens[1..], tokens[0].End() + 1)
  }

  lemma {:induction false} PlainOfFound(next: Lexer, size: nat, tokens: seq<Token>, at: nat)
    requires Lexes(next, size) && Finds(next, tokens, at) && at <= size
    ensures at <= Behind(tokens, at) <= size
    ensures var rest := Plain(next, size, Behind(tokens, at));
      Plain(next, size, at) == rest.(tokens := tokens + rest.tokens)
    decreases |tokens|
  {
    if tokens != [] {
      PlainOfFound(next, size, tokens[1..], tokens[0].End() + 1);
    }
  }

  function Max(x: int, y: int): int {
    if x < y then y else x
  }

  /** The bytes read when the field has been dealt with: all through its SOH, and at BodyLength up to the goal. */
  function ReadPast(goal: Goal, t: Token, end: nat): (read: nat)
    ensures end <= read && t.End() < read
  {
    var read := Max(end, t.End() + 1);
    if t.tag == BODY_LENGTH then Max(read, goal(t)) else read
  }

  /** The parser as it is: `end` bytes have been read already, of which those from `start` on are not yet scanned. */
  ghost function Prefetching(next: Lexer, goal: Goal, size: nat, start: nat, end: nat): (r: Scan)
    requires Lexes(next, size) && start <= size && end <= size
    ensures end <= r.consumed <= size
    decreases size - start
  {
    if next(start).None? then Scan([], EndOfInput, size)
    else
      var t := next(start).value;
      if t.tag == CHECK_SUM then Scan([], AtCheckSum, Max(end, t.End() + 1))
      else if ReadPast(goal, t, end) > size then Scan([t], ShortRead, size)
      else Cons(t, Prefetching(next, goal, size, t.End() + 1, ReadPast(goal, t, end)))
  }

  // ----- Prefetching refines plain reading -----

  /** No BodyLength field announces more than there is up to the end of the message. */
  ghost predicate NotOverstated(goal: Goal, r: Scan) {
    forall t :: t in r.tokens && t.tag == BODY_LENGTH ==> goal(t) <= r.consumed
  }

  lemma NotOverstatedCons(goal: Goal, t: Token, rest: Scan)
    ensures NotOverstated(goal, Cons(t, rest)) <==>
      NotOverstated(goal, rest) && (t.tag == BODY_LENGTH ==> goal(t) <= rest.consumed)
  {
    if NotOverstated(goal, Cons(t, rest)) {
      assert t in Cons(t, rest).tokens;
      forall u | u in rest.tokens && u.tag == BODY_LENGTH
        ensures goal(u) <= rest.consumed
      {
        assert u in Cons(t, rest).tokens;
      }
    }
  }

  lemma ConsInjective(t: Token, a: Scan, b: Scan)
    ensures Cons(t, a) == Cons(t, b) <==> a == b
  {
    assert Cons(t, a).tokens[1..] == a.tokens && Cons(t, b).tokens[1..] == b.tokens;
  }

  /** The bulk read changes nothing, neither the fields found nor the reason to stop nor the bytes consumed, exactly
      when BodyLength does not overstate the body. */
  lemma {:induction false} PrefetchRefinesPlain(next: Lexer, goal: Goal, size: nat, start: nat, end: nat)
    requires Lexes(next, size) && start <= size && end <= Plain(next, size, start).consumed
    ensures Prefetching(next, goal, size, start, end) == Plain(next, size, start)
       <==> NotOverstated(goal, Plain(next, size, start))
    decreases size - start
  {
    if next(start).Some? && next(start).value.tag != CHECK_SUM {
      var t := next(start).value;
      var rest := Plain(next, size, t.End() + 1);
      NotOverstatedCons(goal, t, rest);
      if ReadPast(goal, t, end) <= rest.consumed {
        PrefetchRefinesPlain(next, goal, size, t.End() + 1, ReadPast(goal, t, end));
        ConsInjective(t, Prefetching(next, goal, size, t.End() + 1, ReadPast(goal, t, end)), rest);
      }
    }
  }

  /** Overstating the body cannot change the fields found, unless the bulk read comes up short; then those after the
      BodyLength field are lost. */
  lemma {:induction false} FieldsSurvivePrefetch(next: Lexer, goal: Goal, size: nat, start: nat, end: nat)
    requires Lexes(next, size) && start <= size && end <= size
    ensures var p, q := Prefetching(next, goal, size, start, end), Plain(next, size, start);
      p.tokens <= q.tokens && (p.stop != ShortRead ==> p.tokens == q.tokens && p.stop == q.stop)
    decreases size - start
  {
    if next(start).Some? && next(start).value.tag != CHECK_SUM {
      var t := next(start).value;
      if ReadPast(goal, t, end) <= size {
        FieldsSurvivePrefetch(next, goal, size, t.End() + 1, ReadPast(goal, t, end));
      }
    }
  }

  // ----- Messages back to back -----

  lemma {:induction false} IndexOfExtends(s: Bytes, more: Bytes, b: Byte, from: nat)
    requires from <= |s| && IndexOf(s, b, from).Some?
    ensures IndexOf(s + more, b, from) == IndexOf(s, b, from)
    decreases |s| - from
  {
    if s[from] != b {
      IndexOfExtends(s, more, b, from + 1);
    }
  }

  lemma NextTokenExtends(T: TagTable, input: Bytes, more: Bytes, start: nat)
    requires T.texts != [] && start <= |input| && NextToken(T, input, start).Some?
    ensures NextToken(T, input + more, start) == NextToken(T, input, start)
  {
    IndexOfExtends(input, more, EQUALS, start);
    var e := IndexOf(input, EQUALS, start).value;
    IndexOfExtends(input, more, SOH, e + 1);
    assert (input + more)[start..e] == input[start..e];
  }

  /** Where one lexer finds a field, the other finds the same. */
  ghost predicate Extends(next: Lexer, next': Lexer) {
    forall i: nat :: next(i).Some? ==> next'(i) == next(i)
  }

  lemma LexerOfExtends(T: TagTable, input: Bytes, more: Bytes)
    requires T.texts != []
    ensures Extends(LexerOf(T, input), LexerOf(T, input + more))
  {
    forall i: nat | LexerOf(T, input)(i).Some?
      ensures LexerOf(T, input + more)(i) == LexerOf(T, input)(i)
    {
      NextTokenExtends(T, input, more, i);
    }
  }

  /** What the parser finds in a message does not depend on what follows the message. */
  lemma {:induction false} PlainExtends(next: Lexer, size: nat, next': Lexer, size': nat, start: nat)
    requires Lexes(next, size) && Lexes(next', size') && Extends(next, next') && start <= size <= size'
    requires Plain(next, size, start).stop == AtCheckSum
    ensures Plain(next', size', start) == Plain(next, size, start)
    decreases size - start
  {
    assert next'(start) == next(start);
    var t := next(start).value;
    if t.tag != CHECK_SUM {
      PlainExtends(next, size, next', size', t.End() + 1);
    }
  }

  ghost function PlainScan(T: TagTable, input: Bytes): (r: Scan)
    requires T.texts != []
    ensures r.consumed <= |input|
  {
    LexerOfLexes(T, input);
    Plain(LexerOf(T, input), |input|, 0)
  }

  /** What the parser finds at the front of a stream. */
  ghost function Parsed(T: TagTable, stream: Bytes): (r: Scan)
    requires T.texts != []
    ensures r.consumed <= |stream|
  {
    LexerOfLexes(T, stream);
    Prefetching(LexerOf(T, stream), GoalOf(stream), |stream|, 0, 0)
  }

  /** A whole message: it ends with the SOH of its CheckSum field, and its BodyLength does not overstate its body. */
  ghost predicate IsMessage(T: TagTable, m: Bytes)
    requires T.texts != []
  {
    var r := PlainScan(T, m);
    r.stop == AtCheckSum && r.consumed == |m| && NotOverstated(GoalOf(m), r)
  }

  lemma {:induction false} TokensInside(next: Lexer, size: nat, start: nat)
    requires Lexes(next, size) && start <= size
    ensures forall t :: t in Plain(next, size, start).tokens ==> t.End() < size
    decreases size - start
  {
    if next(start).Some? && next(start).value.tag != CHECK_SUM {
      TokensInside(next, size, next(start).value.End() + 1);
    }
  }

  lemma GoalExtends(m: Bytes, more: Bytes)
    ensures forall t: Token :: t.End() <= |m| ==> GoalOf(m + more)(t) == GoalOf(m)(t)
  {
    forall t: Token | t.End() <= |m|
      ensures GoalOf(m + more)(t) == GoalOf(m)(t)
    {
      assert ValueOf(m + more, t) == ValueOf(m, t);
    }
  }

  /** At the front of any stream a whole message is parsed as if it were alone, and nothing behind it is consumed. */
  lemma MessageInStream(T: TagTable, m: Bytes, more: Bytes)
    requires T.texts != [] && IsMessage(T, m)
    ensures Parsed(T, m + more) == PlainScan(T, m) && Parsed(T, m + more).consumed == |m|
  {
    var next, next' := LexerOf(T, m), LexerOf(T, m + more);
    LexerOfLexes(T, m);
    LexerOfLexes(T, m + more);
    LexerOfExtends(T, m, more);
    PlainExtends(next, |m|, next', |m + more|, 0);
    TokensInside(next, |m|, 0);
    GoalExtends(m, more);
    PrefetchRefinesPlain(next', GoalOf(m + more), |m + more|, 0, 0);
  }

  function Concat(messages: seq<Bytes>): Bytes {
    if messages == [] then [] else messages[0] + Concat(messages[1..])
  }

  /** Parsing the same stream n times in a row: each parse starts where the one before stopped. */
  ghost function ParsedInARow(T: TagTable, stream: Bytes, n: nat): seq<Scan>
    requires T.texts != []
  {
    if n == 0 then []
    else var r := Parsed(T, stream); [r] + ParsedInARow(T, stream[r.consumed..], n - 1)
  }

  ghost predicate EachAsIfAlone(T: TagTable, messages: seq<Bytes>, rs: seq<Scan>)
    requires T.texts != []
  {
    |rs| == |messages| && forall i :: 0 <= i < |rs| ==> rs[i] == PlainScan(T, messages[i])
  }

  /** Concatenated messages parse one by one, each as if it were alone, whatever follows them. */
  lemma {:induction false} BackToBack(T: TagTable, messages: seq<Bytes>, more: Bytes)
    requires T.texts != [] && forall m :: m in messages ==> IsMessage(T, m)
    ensures EachAsIfAlone(T, messages, ParsedInARow(T, Concat(messages) + more, |messages|))
  {
    if messages != [] {
      assert messages[0] in messages && forall x :: x in messages[1..] ==> x in messages;
      BackToBack(T, messages[1..], more);
      FirstOfRow(T, messages, more);
    }
  }

  lemma FirstOfRow(T: TagTable, messages: seq<Bytes>, more: Bytes)
    requires T.texts != [] && messages != [] && IsMessage(T, messages[0])
    requires EachAsIfAlone(T, messages[1..], ParsedInARow(T, Concat(messages[1..]) + more, |messages[1..]|))
    ensures EachAsIfAlone(T, messages, ParsedInARow(T, Concat(messages) + more, |messages|))
  {
    var others := messages[1..];
    assert Concat(messages) + more == messages[0] + (Concat(others) + more) by {
      Associates(messages[0], Concat(others), more);
    }
    OneThenTheRest(T, messages[0], Concat(others) + more, |others| + 1);
    OneMore(T, messages, ParsedInARow(T, Concat(others) + more, |others|));
  }

  lemma OneThenTheRest(T: TagTable, m: Bytes, rest: Bytes, n: nat)
    requires T.texts != [] && IsMessage(T, m) && n > 0
    ensures ParsedInARow(T, m + rest, n) == [PlainScan(T, m)] + ParsedInARow(T, rest, n - 1)
  {
    MessageInStream(T, m, rest);
    assert (m + rest)[|m|..] == rest;
  }

  lemma OneMore(T: TagTable, messages: seq<Bytes>, rs: seq<Scan>)
    requires T.texts != [] && messages != [] && EachAsIfAlone(T, messages[1..], rs)
    ensures EachAsIfAlone(T, messages, [PlainScan(T, messages[0])] + rs)
  {
    forall i | 0 < i <= |rs|
      ensures rs[i - 1] == PlainScan(T, messages[i])
    {
      assert messages[i] == messages[1..][i - 1];
    }
  }
}
