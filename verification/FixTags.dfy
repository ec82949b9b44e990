/** The table of field tags (common/FieldTag.hpp): which tag has which text is left open, but for the tags the codec
    itself looks at. */
module FixTags {
  import opened FixBytes

  /** A tag is a position in the table. */
  type Tag = nat

  /** Positions in the table of the tags with the texts 8, 9, 10 and 35. */
  const BEGIN_STRING: Tag := 7
  const BODY_LENGTH: Tag := 8
  const CHECK_SUM: Tag := 9
  const MSG_TYPE: Tag := 32

  const TEXT_8: Bytes := [56]
  const TEXT_9: Bytes := [57]
  const TEXT_10: Bytes := [49, 48]
  const TEXT_35: Bytes := [51, 53]

  datatype TagTable = TagTable(texts: seq<Bytes>) {
    /** The last entry is INVALID, whose text is empty: its literal begins with a NUL. */
    function Invalid(): Tag
      requires texts != []
    {
      |texts| - 1
    }

    predicate IsTag(t: Tag) {
      t < |texts|
    }

    /** ftof; only tags of the table are ever asked for. */
    function Text(t: Tag): Bytes {
      if IsTag(t) then texts[t] else []
    }
  }

  ghost predicate TableOk(T: TagTable) {
    && |T.texts| > MSG_TYPE + 1
    && (forall i, j :: 0 <= i < j < |T.texts| ==> T.texts[i] != T.texts[j])
    && (forall i :: 0 <= i < |T.texts| ==> EQUALS !in T.texts[i] && SOH !in T.texts[i])
    && T.texts[BEGIN_STRING] == TEXT_8 && T.texts[BODY_LENGTH] == TEXT_9
    && T.texts[CHECK_SUM] == TEXT_10 && T.texts[MSG_TYPE] == TEXT_35
    && T.texts[T.Invalid()] == []
  }

  /** stoft, with what its one caller makes of an unknown text: the first position with this text, or INVALID. */
  function TagOf(T: TagTable, text: Bytes): (t: Tag)
    requires T.texts != []
    ensures T.IsTag(t)
    ensures T.Text(t) == text || (t == T.Invalid() && text !in T.texts)
  {
    FirstFrom(T, text, 0)
  }

  function FirstFrom(T: TagTable, text: Bytes, i: nat): (t: Tag)
    requires T.texts != [] && i <= |T.texts|
    requires text !in T.texts[..i]
    ensures T.IsTag(t)
    ensures T.Text(t) == text || (t == T.Invalid() && text !in T.texts)
    decreases |T.texts| - i
  {
    if i == |T.texts| then T.Invalid()
    else if T.texts[i] == text then i
    else FirstFrom(T, text, i + 1)
  }

  /** Reading undoes writing: stoft of ftof is the tag itself. */
  lemma TagRoundTrip(T: TagTable, t: Tag)
    requires TableOk(T) && T.IsTag(t)
    ensures TagOf(T, T.Text(t)) == t
  {
    var u := TagOf(T, T.Text(t));
    assert T.Text(t) in T.texts;
    assert T.texts[u] == T.texts[t];
  }

  /** All that reading a message back needs of the table: tags are recovered from their texts, in which there is no
      equals sign. */
  ghost predicate ReadsBack(T: TagTable) {
    T.texts != [] && forall t :: T.IsTag(t) ==> TextReadsBack(T, t)
  }

  ghost predicate TextReadsBack(T: TagTable, t: Tag)
    requires T.texts != []
  {
    TagOf(T, T.Text(t)) == t && EQUALS !in T.Text(t)
  }

  lemma TableReadsBack(T: TagTable)
    requires TableOk(T)
    ensures ReadsBack(T)
  {
    forall t | T.IsTag(t)
      ensures TextReadsBack(T, t)
    {
      TagRoundTrip(T, t);
    }
  }
}
