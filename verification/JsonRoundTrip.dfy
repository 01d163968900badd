/** Parsing the printed text of a value gives the value back, formatted or not, down to the nesting limit. */
module JsonRoundTrip {
  import opened Bytes
  import opened JsonComplete
  import opened JsonDocument
  import opened JsonLayout
  import opened JsonParse
  import opened JsonSyntax
  import opened JsonValue

  /** A printed value is read back in the middle of a text, below other arrays and objects as well. */
  lemma ValueBack(v: Json, rest: seq<byte>, format: bool, depth: nat, parseDepth: nat)
    requires Restorable(v) && Delimited(rest) && parseDepth <= NESTING_LIMIT
    ensures var text := Render(v, format, depth);
      var r := ParseValue(text + rest, parseDepth);
      if Depth(v) + parseDepth <= NESTING_LIMIT then r == Success(v, |text|) else r.Failure?
  {
    hide *;
    RenderIsLayout(v, format, depth);
    WrittenBack(Layout(v, format, depth), rest, parseDepth);
  }

  lemma OnlyTheTerminator(text: seq<byte>)
    ensures (text + [0])[|text|..] == [0] && AllWhite([0]) && Delimited([0]) && AllWhite([])
  {
  }

  /**
   Printing a value and parsing the text, with its terminating zero, gives the value back, formatted or not, whether
   or not the terminator is demanded, if and only if at most 1000 arrays and objects are nested in each other.
   */
  lemma PrintThenParse(v: Json, format: bool, requireNullTerminated: bool)
    requires Restorable(v)
    ensures var text := Render(v, format, 0);
      var r := ParseText(text + [0], requireNullTerminated);
      if Depth(v) <= NESTING_LIMIT then r == Document(v, |text|) else r.Error?
  {
    hide *;
    var text := Render(v, format, 0);
    PrintedDocument(v, format);
    if Depth(v) <= NESTING_LIMIT {
      TerminatedHere(text, v);
    } else {
      ErrorEitherWay(text + [0]);
    }
  }

  lemma PrintedDocument(v: Json, format: bool)
    requires Restorable(v)
    ensures var text := Render(v, format, 0);
      var r := ParseText(text + [0], false);
      if Depth(v) <= NESTING_LIMIT then r == Document(v, |text|) else r.Error?
  {
    hide *;
    var text := Render(v, format, 0);
    RenderIsLayout(v, format, 0);
    OnlyTheTerminator(text);
    DocumentIsRead([], Layout(v, format, 0), [0]);
    assert [] + text + [0] == text + [0];
  }

  /** Demanding a terminator makes no text acceptable. */
  lemma ErrorEitherWay(text: seq<byte>)
    requires ParseText(text, false).Error?
    ensures ParseText(text, true).Error?
  {
    hide ParseValue, Skip, BomLength;
  }

  /** Two values with the same text are equal. */
  lemma TextDeterminesValue(v: Json, w: Json, format: bool)
    requires Restorable(v) && Restorable(w) && Depth(v) <= NESTING_LIMIT && Depth(w) <= NESTING_LIMIT
    requires Render(v, format, 0) == Render(w, format, 0)
    ensures v == w
  {
    PrintThenParse(v, format, false);
    PrintThenParse(w, format, false);
  }

  /** Text inserted unchanged is read back as the value whose text it is. */
  lemma RawTextIsRead(v: Json, rest: seq<byte>, format: bool, depth: nat, parseDepth: nat)
    requires Restorable(v) && Delimited(rest) && Depth(v) + parseDepth <= NESTING_LIMIT
    ensures var text := Render(v, format, depth);
      Printable(Raw(text)) &&
      forall format', depth' ::
        ParseValue(Render(Raw(text), format', depth') + rest, parseDepth) == Success(v, |text|)
  {
    hide ParseValue, Restorable, Depth;
    ValueBack(v, rest, format, depth, parseDepth);
    RenderHasNoZero(v, format, depth);
  }
}
