/** The message builder (core/Builder.hpp): a class that writes bytes into a fixed buffer, back-fills the body length
    and appends the checksum. */
module Builder {
  import opened Orders
  import opened FixBytes
  import opened FixTags
  import opened Encoding
  import opened Sequences

  /** 8=FIX.5.0 and its SOH. */
  const BEGIN: Bytes := [56, 61, 70, 73, 88, 46, 53, 46, 48, SOH]
  /** 9= */
  const LENGTH_TAG: Bytes := [57, EQUALS]

  const BODY_LEN_WIDTH: nat := 6
  const CHECKSUM_WIDTH: nat := 7
  const LENGTH_AT: nat := 12
  const BODY_AT: nat := 19

  /** The header with the given body length. */
  function Header(bodyLength: nat): (s: Bytes)
    ensures |s| == BODY_AT
  {
    BEGIN + LENGTH_TAG + Padded(bodyLength, BODY_LEN_WIDTH) + [SOH]
  }

  function ByteSum(s: Bytes): nat {
    if s == [] then 0 else ByteSum(s[..|s| - 1]) + s[|s| - 1]
  }

  /** The sum of two parts is the sum of their sums, and a single byte counts for itself. */
  lemma {:induction false} SumOfParts(s: Bytes, t: Bytes, b: Byte)
    ensures ByteSum(s + t) == ByteSum(s) + ByteSum(t) && ByteSum([b]) == b
    decreases |t|
  {
    assert [b][..0] == [];
    if t == [] {
      assert s + t == s;
    } else {
      assert (s + t)[..|s + t| - 1] == s + t[..|t| - 1];
      SumOfParts(s, t[..|t| - 1], b);
    }
  }

  /** The checksum of everything before the CheckSum field, as in Appendix B of FIX 4.2. */
  function CheckSumOf(s: Bytes): (c: nat)
    ensures c < 256
  {
    ByteSum(s) % 256
  }

  /** What the code appends: 10=0NNN, with no SOH. */
  function CodedTrailer(s: Bytes): (t: Bytes)
    ensures |t| == CHECKSUM_WIDTH
  {
    [49, 48, EQUALS, ZERO] + Padded(CheckSumOf(s), 3)
  }

  /** What its comment says: 10=NNN and an SOH. */
  function CommentedTrailer(s: Bytes): (t: Bytes)
    ensures |t| == CHECKSUM_WIDTH
  {
    [49, 48, EQUALS] + Padded(CheckSumOf(s), 3) + [SOH]
  }

  /** Contents with the reserved digits of the header set to the body length. */
  function Backfilled(contents: Bytes, bodyLength: nat): (s: Bytes)
    requires |contents| >= BODY_AT
    ensures |s| == |contents|
  {
    contents[..LENGTH_AT] + Padded(bodyLength, BODY_LEN_WIDTH) + contents[LENGTH_AT + BODY_LEN_WIDTH..]
  }

  class Builder {
    const T: TagTable
    const maxMessageSize: nat
    const message: array<Byte>
    var cp: nat
    var bodyStart: Option<nat>
    var bodyLenDst: Option<nat>
    var bodyLength: nat

    function Contents(): Bytes
      reads this, message
      requires cp <= message.Length
    {
      message[..cp]
    }

    /** A header has been written; only `Reset` writes one. */
    predicate HasHeader()
      reads this
    {
      bodyStart.Some?
    }

    ghost predicate Valid()
      reads this, message
    {
      && message.Length == maxMessageSize && cp <= maxMessageSize
      && bodyStart == (if HasHeader() then Some(BODY_AT) else None)
      && bodyLenDst == (if HasHeader() then Some(LENGTH_AT) else None)
      && (HasHeader() ==> cp >= BODY_AT)
    }

    /** With a header, the body length is the number of bytes since the body began. */
    ghost predicate Accounted()
      reads this
    {
      HasHeader() ==> bodyLength == cp - BODY_AT
    }

    constructor (T: TagTable, maxMessageSize: nat)
      ensures Valid() && Contents() == [] && !HasHeader() && bodyLength == 0
      ensures this.T == T && this.maxMessageSize == maxMessageSize && fresh(message)
    {
      this.T := T;
      this.maxMessageSize := maxMessageSize;
      message := new Byte[maxMessageSize];
      cp := 0;
      bodyStart, bodyLenDst := None, None;
      bodyLength := 0;
    }

    /** There is room for this many bytes and a checksum field. */
    predicate HasCapacity(needed: nat)
      reads this
    {
      cp + needed + CHECKSUM_WIDTH <= maxMessageSize
    }

    /** Copies the bytes, or leaves everything as it is and reports that they do not fit. */
    method Write(bytes: Bytes) returns (ok: bool)
      requires Valid()
      modifies this`cp, message
      ensures Valid() && ok == old(HasCapacity(|bytes|))
      ensures Contents() == old(Contents()) + if ok then bytes else []
    {
      if !HasCapacity(|bytes|) {
        return false;
      }
      ghost var before := Contents();
      forall k | 0 <= k < |bytes| {
        message[cp + k] := bytes[k];
      }
      cp := cp + |bytes|;
      assert Contents() == before + bytes;
      return true;
    }

    method AccountBody()
      requires Valid()
      modifies this`bodyLength
      ensures Valid() && Accounted() && (!HasHeader() ==> bodyLength == old(bodyLength))
    {
      if bodyStart.Some? {
        bodyLength := cp - bodyStart.value;
      }
    }

    /** Appends a field. When it does not fit, what fits of its tag, equals sign and value stays behind, not accounted
        for. */
    method AddField(tag: Tag, value: Bytes) returns (ok: bool)
      requires Valid()
      modifies this`cp, this`bodyLength, message
      ensures Valid() && ok == old(HasCapacity(|Encode(T, FieldText(tag, value))|))
      ensures ok ==> Contents() == old(Contents()) + Encode(T, FieldText(tag, value)) && Accounted()
      ensures !ok ==> bodyLength == old(bodyLength) && old(Contents()) <= Contents()
                      && Contents() <= old(Contents()) + Encode(T, FieldText(tag, value))
      ensures !HasHeader() ==> bodyLength == old(bodyLength)
    {
      ghost var before := Contents();
      ok := Write(T.Text(tag));
      if ok {
        ok := Write([EQUALS]);
        if ok {
          ok := Write(value);
          if ok {
            ok := Write([SOH]);
            if ok {
              FieldInParts(before, T.Text(tag), value);
              AccountBody();
            }
          }
        }
      }
    }

    method AddInt(tag: Tag, value: int) returns (ok: bool)
      requires Valid() && IsInt64(value)
      modifies this`cp, this`bodyLength, message
      ensures Valid() && ok == old(HasCapacity(|Encode(T, FieldText(tag, WriteSigned(value)))|))
      ensures ok ==> Contents() == old(Contents()) + Encode(T, FieldText(tag, WriteSigned(value))) && Accounted()
    {
      ok := AddField(tag, WriteSigned(value));
    }

    method AddChar(tag: Tag, value: Byte) returns (ok: bool)
      requires Valid()
      modifies this`cp, this`bodyLength, message
      ensures Valid() && ok == old(HasCapacity(|Encode(T, FieldText(tag, [value]))|))
      ensures ok ==> Contents() == old(Contents()) + Encode(T, FieldText(tag, [value])) && Accounted()
    {
      ok := AddField(tag, [value]);
    }

    /** Appends what src holds and resets src; src then holds a header, even if it held none before. */
    method Append(src: Builder) returns (ok: bool)
      requires Valid() && src.Valid() && src != this && src.message != message
      requires src.maxMessageSize >= BODY_AT + CHECKSUM_WIDTH
      modifies this`cp, this`bodyLength, message, src, src.message
      ensures Valid() && src.Valid() && ok == old(HasCapacity(|src.Contents()|))
      ensures Contents() == old(Contents()) + if ok then old(src.Contents()) else []
      ensures bodyLength == old(bodyLength) + if ok && HasHeader() then old(|src.Contents()|) else 0
      ensures old(Accounted()) ==> Accounted()
      ensures ok ==> src.Contents() == Header(0) && src.HasHeader() && src.Accounted()
      ensures !ok ==> src.Contents() == old(src.Contents())
    {
      var bytes := src.Contents();
      ok := Write(bytes);
      if ok {
        if bodyStart.Some? {
          bodyLength := bodyLength + |bytes|;
        }
        src.Reset();
      }
    }

    /** Zeros where the body length will be filled in. */
    method ReserveDigits()
      requires Valid() && HasCapacity(BODY_LEN_WIDTH) && !HasHeader()
      modifies this`cp, message
      ensures Valid() && Contents() == old(Contents()) + Zeros(BODY_LEN_WIDTH)
    {
      forall k | 0 <= k < BODY_LEN_WIDTH {
        message[cp + k] := ZERO;
      }
      cp := cp + BODY_LEN_WIDTH;
      AllZeros(BODY_LEN_WIDTH);
    }

    /** Starts a new message. A buffer too small for the header would end the program here. */
    method Reset()
      requires Valid() && maxMessageSize >= BODY_AT + CHECKSUM_WIDTH
      modifies this, message
      ensures Valid() && HasHeader() && Accounted() && bodyLength == 0
      ensures Contents() == Header(0)
    {
      cp := 0;
      // The original leaves bodyStart as it was until the end; nothing looks at it in between.
      bodyStart, bodyLenDst := None, None;
      bodyLength := 0;
      var ok := Write(BEGIN);
      assert Contents() == BEGIN;
      ok := Write(LENGTH_TAG);
      assert Contents() == BEGIN + LENGTH_TAG;
      ReserveDigits();
      assert Contents() == BEGIN + LENGTH_TAG + Padded(0, BODY_LEN_WIDTH) by {
        PaddedZero(BODY_LEN_WIDTH);
      }
      ok := Write([SOH]);
      bodyLenDst, bodyStart := Some(LENGTH_AT), Some(cp);
    }

    /** Writes the body length, right-justified with zeros in front, over the reserved digits. A length of more than six
        digits leaves the local buffer as it is, and that is then copied. */
    method BackfillBodyLength()
      requires Valid()
      modifies message
      ensures Valid()
      ensures if HasHeader() then IsBackfilled(old(Contents()), bodyLength, Contents())
              else Contents() == old(Contents())
    {
      if bodyLenDst.None? {
        return;
      }
      ghost var before := Contents();
      var tmp := new Byte[BODY_LEN_WIDTH];
      var dst := bodyLenDst.value;
      var len := ToChars(tmp, bodyLength);
      var pad := BODY_LEN_WIDTH - len;
      forall k | 0 <= k < pad {
        message[dst + k] := ZERO;
      }
      forall k | 0 <= k < len {
        message[dst + pad + k] := tmp[k];
      }
      if bodyLength < Power10(BODY_LEN_WIDTH) {
        ZerosThenDigits(bodyLength, BODY_LEN_WIDTH);
        FilledIn(before, Contents(), bodyLength, Digits(bodyLength));
      }
    }

    /** Sums the bytes in a 32-bit unsigned accumulator and appends the last three digits of the sum modulo 256. */
    method WriteChecksum() returns (ok: bool)
      requires Valid()
      modifies this`cp, message
      ensures Valid() && ok == old(HasCapacity(CHECKSUM_WIDTH))
      ensures Contents() == old(Contents()) + if ok then CodedTrailer(old(Contents())) else []
    {
      ghost var bytes := Contents();
      var sum: uint32 := 0;
      var p: nat := 0;
      while p != cp
        invariant p <= cp == |bytes| && bytes == Contents()
        invariant sum % 256 == ByteSum(bytes[..p]) % 256
        decreases cp - p
      {
        SumStep(sum, ByteSum(bytes[..p]), message[p]);
        assert bytes[..p + 1][..p] == bytes[..p] && bytes[p] == message[p];
        sum := (sum + message[p]) % TWO_32;
        p := p + 1;
      }
      assert bytes[..p] == bytes;
      var rest: nat := sum % 256;
      var tmp: Bytes := [49, 48, EQUALS, ZERO, ZERO, ZERO, SOH];
      tmp := tmp[6 := ZERO + rest % 10];
      rest := rest / 10;
      tmp := tmp[5 := ZERO + rest % 10];
      rest := rest / 10;
      tmp := tmp[4 := ZERO + rest % 10];
      ThreeDigits(CheckSumOf(bytes));
      assert tmp == CodedTrailer(bytes);
      ok := Write(tmp);
    }

    /** Finishes the message: the contents with the body length filled in, and the trailer over them. */
    method Build() returns (ok: bool, view: Bytes)
      requires Valid()
      modifies this`cp, message
      ensures Valid() && ok == old(HasCapacity(CHECKSUM_WIDTH)) && view == Contents()
      ensures |view| == |old(Contents())| + if ok then CHECKSUM_WIDTH else 0
      ensures var body := view[..|old(Contents())|];
        && (if HasHeader() then IsBackfilled(old(Contents()), bodyLength, body) else body == old(Contents()))
        && (ok ==> view == body + CodedTrailer(body))
    {
      BackfillBodyLength();
      ghost var body := Contents();
      ok := WriteChecksum();
      view := Contents();
      assert view[..|body|] == body;
    }
  }

  /** std::to_chars into a local buffer: the digits and their number, or the size of the buffer when they do not fit. */
  method ToChars(tmp: array<Byte>, value: nat) returns (len: nat)
    modifies tmp
    ensures len == if |Digits(value)| <= tmp.Length then |Digits(value)| else tmp.Length
    ensures |Digits(value)| <= tmp.Length ==> tmp[..len] == Digits(value)
  {
    var digits := Digits(value);
    if |digits| > tmp.Length {
      return tmp.Length;
    }
    forall k | 0 <= k < |digits| {
      tmp[k] := digits[k];
    }
    len := |digits|;
    assert tmp[..len] == digits;
  }

  /** Nothing but the reserved digits has changed, and these hold the body length if it has at most six. */
  ghost predicate IsBackfilled(before: Bytes, bodyLength: nat, after: Bytes) {
    && |before| >= BODY_AT && |after| == |before|
    && (forall k :: 0 <= k < |before| && !(LENGTH_AT <= k < LENGTH_AT + BODY_LEN_WIDTH) ==> after[k] == before[k])
    && (bodyLength < Power10(BODY_LEN_WIDTH) ==> after == Backfilled(before, bodyLength))
  }

  lemma FieldInParts(before: Bytes, text: Bytes, value: Bytes)
    ensures before + text + [EQUALS] + value + [SOH] == before + (text + [EQUALS] + value + [SOH])
  {
  }

  lemma {:induction false} AllZeros(n: nat)
    ensures forall k :: 0 <= k < n ==> Zeros(n)[k] == ZERO
  {
    if n > 0 {
      AllZeros(n - 1);
    }
  }

  lemma FilledIn(before: Bytes, after: Bytes, n: nat, digits: Bytes)
    requires |after| == |before| >= BODY_AT && n < Power10(BODY_LEN_WIDTH)
    requires digits == Digits(n) && |digits| <= BODY_LEN_WIDTH
    requires var start := LENGTH_AT + BODY_LEN_WIDTH - |digits|;
      && (forall k :: LENGTH_AT <= k < start ==> after[k] == ZERO)
      && (forall k :: start <= k < LENGTH_AT + BODY_LEN_WIDTH ==> after[k] == digits[k - start])
    requires forall k :: 0 <= k < |before| && !(LENGTH_AT <= k < LENGTH_AT + BODY_LEN_WIDTH) ==> after[k] == before[k]
    ensures after == Backfilled(before, n)
  {
    var mid := after[LENGTH_AT..LENGTH_AT + BODY_LEN_WIDTH];
    assert mid == Padded(n, BODY_LEN_WIDTH) by {
      RightJustified(mid, n, digits);
    }
    assert after[..LENGTH_AT] == before[..LENGTH_AT];
    assert after[LENGTH_AT + BODY_LEN_WIDTH..] == before[LENGTH_AT + BODY_LEN_WIDTH..];
    assert after == after[..LENGTH_AT] + mid + after[LENGTH_AT + BODY_LEN_WIDTH..];
  }

  lemma RightJustified(mid: Bytes, n: nat, digits: Bytes)
    requires n < Power10(BODY_LEN_WIDTH) && digits == Digits(n) && |digits| <= BODY_LEN_WIDTH == |mid|
    requires forall k :: 0 <= k < BODY_LEN_WIDTH - |digits| ==> mid[k] == ZERO
    requires forall k :: BODY_LEN_WIDTH - |digits| <= k < BODY_LEN_WIDTH ==>
               mid[k] == digits[k - (BODY_LEN_WIDTH - |digits|)]
    ensures mid == Padded(n, BODY_LEN_WIDTH)
  {
    ZerosThenDigits(n, BODY_LEN_WIDTH);
    AllZeros(BODY_LEN_WIDTH - |digits|);
    assert mid == Zeros(BODY_LEN_WIDTH - |digits|) + digits;
  }

  /** Adding in 32 bits does not change the sum modulo 256. */
  lemma SumStep(sum: uint32, exact: nat, b: Byte)
    requires sum % 256 == exact % 256
    ensures (sum + b) % TWO_32 % 256 == (exact + b) % 256
  {
    var x := sum + b;
    assert x == x / TWO_32 * TWO_32 + x % TWO_32;
    ModOfShift(x % TWO_32, x / TWO_32 * (TWO_32 / 256), 256);
    assert x / TWO_32 * (TWO_32 / 256) * 256 == x / TWO_32 * TWO_32;
    DrawsIgnoreWrap(b, sum, 256);
    DrawsIgnoreWrap(b, exact, 256);
  }

  lemma ThreeDigits(n: nat)
    ensures Padded(n, 3) == [ZERO + n / 10 / 10 % 10, ZERO + n / 10 % 10, ZERO + n % 10]
  {
    assert Padded(n / 10 / 10, 1) == Padded(n / 10 / 10 / 10, 0) + [ZERO + n / 10 / 10 % 10];
  }

  /** Framing as in Appendix B of FIX 4.2: in a built message the digits of the BodyLength field decode to the body
      length, the last three digits to the sum modulo 256 of all bytes before the CheckSum field, and all other bytes
      are those that were written. */
  lemma FramingDecodes(contents: Bytes, bodyLength: nat)
    requires |contents| >= BODY_AT && bodyLength < Power10(BODY_LEN_WIDTH)
    ensures var body := Backfilled(contents, bodyLength);
      var m := body + CodedTrailer(body);
      && ParseSigned(m[LENGTH_AT..LENGTH_AT + BODY_LEN_WIDTH]) == bodyLength
      && ParseSigned(m[|m| - 3..]) == ByteSum(m[..|m| - CHECKSUM_WIDTH]) % 256
      && forall k :: 0 <= k < |contents| && !(LENGTH_AT <= k < LENGTH_AT + BODY_LEN_WIDTH) ==> m[k] == contents[k]
  {
    var body := Backfilled(contents, bodyLength);
    var m := body + CodedTrailer(body);
    assert m[LENGTH_AT..LENGTH_AT + BODY_LEN_WIDTH] == Padded(bodyLength, BODY_LEN_WIDTH);
    PaddedDecodes(bodyLength, BODY_LEN_WIDTH);
    assert m[..|m| - CHECKSUM_WIDTH] == body;
    assert m[|m| - 3..] == Padded(CheckSumOf(body), 3);
    assert Power10(3) == 1000;
    PaddedDecodes(CheckSumOf(body), 3);
  }

  // ----- A whole message -----

  ghost predicate BodyFits(T: TagTable, fields: seq<FieldText>) {
    Size(T, fields) < Power10(BODY_LEN_WIDTH)
  }

  function Body(T: TagTable, fields: seq<FieldText>): Bytes {
    Header(Size(T, fields)) + EncodeAll(T, fields)
  }

  /** The message that a fresh header, these fields and `build` make. */
  function Built(T: TagTable, fields: seq<FieldText>): Bytes {
    Body(T, fields) + CodedTrailer(Body(T, fields))
  }

  lemma BackfilledBody(T: TagTable, fields: seq<FieldText>, contents: Bytes, bodyLength: nat)
    requires contents == Header(0) + EncodeAll(T, fields) && bodyLength == Size(T, fields)
    ensures Backfilled(contents, bodyLength) == Body(T, fields)
  {
  }

  lemma PrefixSteps(T: TagTable, fields: seq<FieldText>, i: nat, header: Bytes)
    requires i < |fields|
    ensures var step := Encode(T, FieldText(fields[i].tag, fields[i].value));
      && header + EncodeAll(T, fields[..i + 1]) == header + EncodeAll(T, fields[..i]) + step
      && Size(T, fields[..i + 1]) == Size(T, fields[..i]) + |step|
      && Size(T, fields[..i + 1]) <= Size(T, fields)
  {
    var step := Encode(T, fields[i]);
    assert EncodeAll(T, fields[..i + 1]) == EncodeAll(T, fields[..i]) + step
        && Size(T, fields[..i + 1]) == Size(T, fields[..i]) + |step| by {
      OneFieldMore(T, fields[..i], fields[i]);
      assert fields[..i + 1] == fields[..i] + [fields[i]];
    }
    assert Size(T, fields) == Size(T, fields[..i + 1]) + Size(T, fields[i + 1..]) by {
      EncodeConcat(T, fields[..i + 1], fields[i + 1..]);
      assert fields == fields[..i + 1] + fields[i + 1..];
    }
    Associates(header, EncodeAll(T, fields[..i]), step);
  }

  lemma OneFieldMore(T: TagTable, fields: seq<FieldText>, f: FieldText)
    ensures EncodeAll(T, fields + [f]) == EncodeAll(T, fields) + Encode(T, f)
    ensures Size(T, fields + [f]) == Size(T, fields) + |Encode(T, f)|
  {
    EncodeConcat(T, fields, [f]);
    assert [f][1..] == [];
    assert EncodeAll(T, [f]) == Encode(T, f) + [];
  }

  /** The state of the builder after a reset and these fields. */
  ghost predicate HoldsFields(b: Builder, fields: seq<FieldText>)
    reads b, b.message
  {
    && b.Valid() && b.HasHeader() && b.Accounted()
    && b.Contents() == Header(0) + EncodeAll(b.T, fields)
    && b.cp == BODY_AT + Size(b.T, fields) <= b.maxMessageSize - CHECKSUM_WIDTH
  }

  method WriteFields(b: Builder, fields: seq<FieldText>) returns (ok: bool)
    requires b.Valid() && b.maxMessageSize >= BODY_AT + CHECKSUM_WIDTH
    modifies b, b.message
    ensures ok <==> BODY_AT + Size(b.T, fields) + CHECKSUM_WIDTH <= b.maxMessageSize
    ensures ok ==> HoldsFields(b, fields)
  {
    b.Reset();
    var i := 0;
    while i < |fields|
      invariant i <= |fields| && HoldsFields(b, fields[..i])
    {
      PrefixSteps(b.T, fields, i, Header(0));
      ok := b.AddField(fields[i].tag, fields[i].value);
      if !ok {
        return;
      }
      i := i + 1;
    }
    assert fields[..i] == fields;
    ok := true;
  }

  /** Writing a list of fields after a reset and building: the framing of the message is correct. The room for the
      checksum field is asked for twice, so a message must stay seven bytes below the limit. */
  method BuildMessage(b: Builder, fields: seq<FieldText>) returns (ok: bool, view: Bytes)
    requires b.Valid() && b.maxMessageSize >= BODY_AT + CHECKSUM_WIDTH
    modifies b, b.message
    ensures ok <==> BODY_AT + Size(b.T, fields) + 2 * CHECKSUM_WIDTH <= b.maxMessageSize
    ensures ok && BodyFits(b.T, fields) ==> view == Built(b.T, fields)
  {
    ok := WriteFields(b, fields);
    view := [];
    if ok {
      assert b.bodyLength == Size(b.T, fields) && b.HasHeader();
      BackfilledBody(b.T, fields, b.Contents(), b.bodyLength);
      ok, view := b.Build();
    }
  }
}
