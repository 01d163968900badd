/** The printer as it runs: text written in place into a buffer that is enlarged on demand. */
module JsonPrinter {
  import opened Bytes
  import opened Utf16
  import opened JsonNumber
  import opened JsonString
  import opened JsonValue

  class PrintBuffer {
    var buffer: array<byte>
    var offset: nat
    var depth: nat
    const noalloc: bool
    const format: bool
    /** Whether the allocator offers reallocation; otherwise the text is copied by hand. */
    const hasRealloc: bool

    ghost predicate Valid()
      reads this
    {
      offset < buffer.Length <= INT_MAX
    }

    /** How large the buffer can get. */
    ghost function Limit(): nat
      reads this
    {
      if noalloc then buffer.Length else INT_MAX
    }

    ghost function Written(): (s: seq<byte>)
      requires Valid()
      reads this, buffer
      ensures |s| == offset
    {
      buffer[..offset]
    }

    /** The buffer holds `text` and a zero; the offset may be anywhere up to the end of the text. */
    ghost predicate Holds(text: seq<byte>)
      reads this, buffer
    {
      offset <= |text| < buffer.Length && buffer[..|text|] == text && buffer[|text|] == 0
    }

    constructor (size: nat, noalloc: bool, format: bool, hasRealloc: bool)
      requires 0 < size <= INT_MAX
      ensures Valid() && fresh(buffer) && offset == 0 && depth == 0 && buffer.Length == size
      ensures this.noalloc == noalloc && this.format == format && this.hasRealloc == hasRealloc
    {
      buffer := new byte[size];
      offset, depth := 0, 0;
      this.noalloc, this.format, this.hasRealloc := noalloc, format, hasRealloc;
    }

    /** Printing into a buffer of the caller's. */
    constructor Over(target: array<byte>, format: bool)
      requires 0 < target.Length <= INT_MAX
      ensures Valid() && buffer == target && offset == 0 && depth == 0 && noalloc && this.format == format
    {
      buffer := target;
      offset, depth := 0, 0;
      this.noalloc, this.format, this.hasRealloc := true, format, false;
    }

    /** Room for `needed` more bytes and one more, or failure; what is written so far is kept. */
    method Ensure(needed: nat) returns (ok: bool)
      requires Valid()
      modifies this`buffer
      ensures Valid() && (buffer == old(buffer) || (fresh(buffer) && !noalloc))
      ensures ok == (offset + needed + 1 <= old(Limit())) && Limit() == old(Limit())
      ensures ok ==> offset + needed + 1 <= buffer.Length
      ensures Written() == old(Written())
    {
      ok := false;
      if needed > INT_MAX {
        return;
      }
      var total := needed + offset + 1;
      if total <= buffer.Length {
        return true;
      }
      if noalloc {
        return;
      }
      var newsize: nat;
      if total > INT_MAX / 2 {
        if total <= INT_MAX {
          newsize := INT_MAX;
        } else {
          return;
        }
      } else {
        newsize := total * 2;
      }
      var newbuffer := new byte[newsize];
      if hasRealloc {
        Copy(buffer, newbuffer, buffer.Length);
      } else {
        Copy(buffer, newbuffer, offset + 1);
      }
      assert newbuffer[..offset] == buffer[..offset];
      buffer := newbuffer;
      ok := true;
    }

    static method Copy(source: array<byte>, target: array<byte>, n: nat)
      requires n <= source.Length && n <= target.Length && source != target
      modifies target
      ensures forall i | 0 <= i < n :: target[i] == source[i]
    {
      for i := 0 to n
        invariant forall k | 0 <= k < i :: target[k] == source[k]
      {
        target[i] := source[i];
      }
    }

    /** Write `text` at a position; everything before it stays. */
    static method Fill(target: array<byte>, at: nat, text: seq<byte>)
      requires at + |text| <= target.Length
      modifies target
      ensures target[..at + |text|] == old(target[..at]) + text
    {
      ghost var before := target[..at];
      for i := 0 to |text|
        invariant target[..at + i] == before + text[..i]
      {
        target[at + i] := text[i];
        assert text[..i + 1] == text[..i] + [text[i]];
      }
      assert text[..|text|] == text;
    }

    /** Write `text` at the offset, without moving the offset. */
    method Write(text: seq<byte>)
      requires Valid() && offset + |text| <= buffer.Length
      modifies buffer
      ensures Valid() && Written() == old(Written())
      ensures buffer[..offset + |text|] == old(Written()) + text
    {
      Fill(buffer, offset, text);
      assert buffer[..offset] == buffer[..offset + |text|][..offset];
    }

    /** Move the offset behind the text: the length of the string that starts there. */
    method UpdateOffset(ghost before: seq<byte>, ghost text: seq<byte>)
      requires Valid() && Holds(before + text) && 0 !in text && |before| <= offset
      modifies this`offset
      ensures Valid() && Written() == before + text
    {
      ghost var all := before + text;
      forall i | offset <= i < |all| ensures buffer[i] != 0 {
        assert buffer[i] == buffer[..|all|][i] == text[i - |before|];
      }
      var length := 0;
      while buffer[offset + length] != 0
        invariant offset + length <= |all|
        decreases |all| - length
      {
        length := length + 1;
      }
      assert buffer[..offset + length] == all;
      offset := offset + length;
    }

    // ---- Strings ----

    /** First pass: how many additional bytes escaping takes. */
    static method CountEscapes(input: seq<byte>) returns (escapeCharacters: nat)
      ensures escapeCharacters == EscapeCharacters(input)
    {
      escapeCharacters := 0;
      for i := 0 to |input|
        invariant escapeCharacters == EscapeCharacters(input[..i])
      {
        CountOne(input, i);
        if ShortEscape(input[i]).Some? {
          escapeCharacters := escapeCharacters + 1;
        } else if input[i] < 32 {
          escapeCharacters := escapeCharacters + 5;
        }
      }
      assert input[..|input|] == input;
    }

    /** One byte escaped; printing a code unit also writes a zero behind it. */
    method WriteByte(b: byte, at: nat) returns (end: nat)
      requires at + |EscapeByte(b)| < buffer.Length
      modifies buffer
      ensures end == at + |EscapeByte(b)| && buffer[..end] == old(buffer[..at]) + EscapeByte(b)
    {
      if b > 31 && b != QUOTE && b != BACKSLASH {
        buffer[at] := b;
        end := at + 1;
      } else if ShortEscape(b).Some? {
        buffer[at] := BACKSLASH;
        buffer[at + 1] := ShortEscape(b).value;
        end := at + 2;
      } else {
        Fill(buffer, at, Literal(b) + [0]);
        end := at + 6;
        assert buffer[..end] == buffer[..at + 7][..end];
      }
    }

    /** Second pass: the escaped bytes, from `at` on. */
    method WriteEscaped(input: seq<byte>, at: nat) returns (end: nat)
      requires at + |Escape(input)| < buffer.Length
      modifies buffer
      ensures end == at + |Escape(input)|
      ensures buffer[..end] == old(buffer[..at]) + Escape(input)
    {
      EscapeEnds(input);
      hide Escape, EscapeByte;
      ghost var before := buffer[..at];
      end := at;
      for i := 0 to |input|
        invariant end + |Escape(input[i..])| == at + |Escape(input)|
        invariant buffer[..end] == before + Escape(input[..i])
        modifies buffer
      {
        EscapeOne(input, i);
        ghost var soFar := Escape(input[..i]);
        end := WriteByte(input[i], end);
        assert before + soFar + EscapeByte(input[i]) == before + (soFar + EscapeByte(input[i]));
      }
    }

    /** A string; a missing one is printed as an empty one. */
    method PrintString(input: Option<seq<byte>>) returns (ok: bool)
      requires Valid() && (input.Some? ==> 0 !in input.value)
      modifies this`buffer, buffer
      ensures Valid() && (buffer == old(buffer) || (fresh(buffer) && !noalloc)) && Limit() == old(Limit())
      ensures var text := Quoted(BytesOf(input));
        ok == (offset + |text| + 2 <= Limit()) && (ok ==> Holds(old(Written()) + text))
    {
      if input == None {
        ok := Ensure(3);
        if ok {
          assert Quoted([]) == [QUOTE, QUOTE];
          WriteTerminated([QUOTE, QUOTE]);
        }
        return;
      }
      var bytes := input.value;
      var escapeCharacters := CountEscapes(bytes);
      var outputLength := |bytes| + escapeCharacters;
      EscapeLength(bytes);
      ok := Ensure(outputLength + 3);
      if !ok {
        return;
      }
      if escapeCharacters == 0 {
        NothingToEscape(bytes);
        WriteTerminated(Quoted(bytes));
      } else {
        WriteQuoted(bytes);
      }
    }

    method WriteTerminated(text: seq<byte>)
      requires Valid() && offset + |text| + 1 <= buffer.Length
      modifies buffer
      ensures Valid() && Written() == old(Written()) && Holds(old(Written()) + text)
    {
      ghost var before := Written();
      Write(text + [0]);
      Terminated(before, text);
    }

    method WriteQuoted(input: seq<byte>)
      requires Valid() && offset + |Quoted(input)| + 1 <= buffer.Length
      modifies buffer
      ensures Valid() && Holds(old(Written()) + Quoted(input))
    {
      hide Escape;
      ghost var before := Written();
      buffer[offset] := QUOTE;
      assert buffer[..offset + 1] == before + [QUOTE];
      var end := WriteEscaped(input, offset + 1);
      assert buffer[..end] == before + [QUOTE] + Escape(input);
      buffer[end] := QUOTE;
      buffer[end + 1] := 0;
      assert buffer[..end] == before + [QUOTE] + Escape(input);
      assert buffer[..end + 1] == before + ([QUOTE] + Escape(input) + [QUOTE]);
    }

    // ---- Numbers and words ----

    /** An integer is converted by the library and copied; what is not finite is printed as a null. */
    method PrintNumber(v: Json) returns (ok: bool)
      requires Valid() && (v.Number? || v.Infinite? || v.NotANumber?) && Printable(v)
      modifies this`buffer, this`offset, buffer
      ensures Valid() && (buffer == old(buffer) || (fresh(buffer) && !noalloc)) && Limit() == old(Limit())
      ensures old(offset) <= offset
      ensures var text := if v.Number? then Decimal(ValueInt(v.value)) else NULL_TEXT;
        ok == (old(offset) + |text| + 2 <= Limit()) && (ok ==> Holds(old(Written()) + text))
    {
      var numberBuffer := NULL_TEXT;
      if v.Number? {
        numberBuffer := Decimal(ValueInt(v.value));
        DecimalFits(ValueInt(v.value));
      }
      if |numberBuffer| > 25 {
        return false;
      }
      ok := Ensure(|numberBuffer| + 1);
      if !ok {
        return;
      }
      WriteTerminated(numberBuffer);
      offset := offset + |numberBuffer|;
    }

    method PrintWord(word: seq<byte>) returns (ok: bool)
      requires Valid()
      modifies this`buffer, buffer
      ensures Valid() && (buffer == old(buffer) || (fresh(buffer) && !noalloc)) && Limit() == old(Limit())
      ensures ok == (offset + |word| + 2 <= Limit()) && (ok ==> Holds(old(Written()) + word))
    {
      ok := Ensure(|word| + 1);
      if ok {
        WriteTerminated(word);
      }
    }

    // ---- Values ----

    /**
     Print a value. It succeeds exactly if its text and two more bytes fit, and then the buffer holds what was written
     before, the text, and a zero.
     */
    method PrintValue(v: Json) returns (ok: bool)
      requires Valid() && Printable(v)
      modifies this, buffer
      ensures Valid() && (buffer == old(buffer) || (fresh(buffer) && !noalloc)) && Limit() == old(Limit())
      ensures old(offset) <= offset
      ensures var text := Render(v, format, old(depth));
        ok == (old(offset) + |text| + 2 <= Limit()) && (ok ==> Holds(old(Written()) + text) && depth == old(depth))
      decreases v
    {
      match v
      case Null => ok := PrintWord(NULL_TEXT);
      case False => ok := PrintWord(FALSE_TEXT);
      case True => ok := PrintWord(TRUE_TEXT);
      case Number(_) => ok := PrintNumber(v);
      case Infinite(_) => ok := PrintNumber(v);
      case NotANumber => ok := PrintNumber(v);
      case String(bytes) => ok := PrintString(Some(bytes));
      case Raw(bytes) => ok := PrintWord(bytes);
      case Array(elements) => ok := PrintArray(elements);
      case Object(members) => ok := PrintObject(members);
    }

    /** Make room for a text and write it, with a zero behind it; the offset moves behind the text. */
    method Append(text: seq<byte>) returns (ok: bool)
      requires Valid()
      modifies this`buffer, this`offset, buffer
      ensures Valid() && (buffer == old(buffer) || (fresh(buffer) && !noalloc)) && Limit() == old(Limit())
      ensures ok == (old(offset) + |text| + 2 <= Limit())
      ensures if ok then Written() == old(Written()) + text else offset == old(offset)
    {
      ok := Ensure(|text| + 1);
      if !ok {
        return;
      }
      WriteTerminated(text);
      offset := offset + |text|;
    }

    /** The same without a zero, and with `spare` bytes of room asked for in addition. */
    method AppendOpen(text: seq<byte>, spare: nat) returns (ok: bool)
      requires Valid()
      modifies this`buffer, this`offset, buffer
      ensures Valid() && (buffer == old(buffer) || (fresh(buffer) && !noalloc)) && Limit() == old(Limit())
      ensures ok == (old(offset) + |text| + spare + 1 <= Limit())
      ensures if ok then Written() == old(Written()) + text else offset == old(offset)
    {
      ok := Ensure(|text| + spare);
      if !ok {
        return;
      }
      Write(text);
      offset := offset + |text|;
    }

    method PrintArray(es: Elements) returns (ok: bool)
      requires Valid() && PrintableElements(es)
      modifies this, buffer
      ensures Valid() && (buffer == old(buffer) || (fresh(buffer) && !noalloc)) && Limit() == old(Limit())
      ensures old(offset) <= offset
      ensures var text := Render(Array(es), format, old(depth));
        ok == (old(offset) + |text| + 2 <= Limit()) && (ok ==> Holds(old(Written()) + text) && depth == old(depth))
      decreases es, 2
    {
      hide Render, RenderElements, Printable, PrintableElements;
      ArrayText(es, format, depth);
      ghost var before, inner := Written(), RenderElements(es, format, depth + 1);
      ok := AppendOpen([OPEN_BRACKET], 0);
      if !ok {
        return;
      }
      depth := depth + 1;
      Associate(before, [OPEN_BRACKET], inner, [CLOSE_BRACKET]);
      ok := PrintElements(es);
      if !ok {
        return;
      }
      ok := PrintWord([CLOSE_BRACKET]);
      depth := depth - 1;
    }

    method PrintElements(es: Elements) returns (ok: bool)
      requires Valid() && PrintableElements(es)
      modifies this, buffer
      ensures Valid() && (buffer == old(buffer) || (fresh(buffer) && !noalloc)) && Limit() == old(Limit())
      ensures old(offset) <= offset
      ensures var text := RenderElements(es, format, old(depth));
        if ok then Written() == old(Written()) + text && depth == old(depth)
        else old(offset) + |text| + 2 > Limit()
      decreases es, 1
    {
      hide RenderElements, PrintableElements;
      ghost var all := Written() + RenderElements(es, format, depth);
      var current := es;
      while current.Element?
        invariant Valid() && (buffer == old(buffer) || (fresh(buffer) && !noalloc)) && Limit() == old(Limit())
        invariant PrintableElements(current) && (current == es || current < es)
        invariant old(offset) <= offset && depth == old(depth)
        invariant Written() + RenderElements(current, format, depth) == all
        decreases current
      {
        ok := PrintElement(current);
        if !ok {
          return;
        }
        current := current.next;
      }
      RenderElementsEmpty(format, depth);
      ok := true;
    }

    /** One round: an element, and a comma if another one follows. */
    method PrintElement(current: Elements) returns (ok: bool)
      requires Valid() && current.Element? && PrintableElements(current)
      modifies this, buffer
      ensures Valid() && (buffer == old(buffer) || (fresh(buffer) && !noalloc)) && Limit() == old(Limit())
      ensures old(offset) <= offset
      ensures !ok ==> old(offset) + |RenderElements(current, format, old(depth))| + 2 > Limit()
      ensures ok ==> depth == old(depth) && PrintableElements(current.next)
      ensures ok ==>
        Written() + RenderElements(current.next, format, depth) ==
          old(Written()) + RenderElements(current, format, depth)
      decreases current, 0
    {
      hide Render, RenderElements, Printable, PrintableElements, Comma;
      ElementText(current, format, depth);
      ghost var before, text := Written(), Render(current.value, format, depth);
      ok := PrintValue(current.value);
      if !ok {
        return;
      }
      UpdateOffset(before, text);
      if current.next.Element? {
        ok := Append(Comma(format));
        if !ok {
          return;
        }
      }
      ghost var rest := RenderElements(current.next, format, depth);
      Associate(before, text, if current.next.Element? then Comma(format) else [], rest);
    }

    method PrintObject(ms: Members) returns (ok: bool)
      requires Valid() && PrintableMembers(ms)
      modifies this, buffer
      ensures Valid() && (buffer == old(buffer) || (fresh(buffer) && !noalloc)) && Limit() == old(Limit())
      ensures old(offset) <= offset
      ensures var text := Render(Object(ms), format, old(depth));
        ok == (old(offset) + |text| + 2 <= Limit()) && (ok ==> Holds(old(Written()) + text) && depth == old(depth))
      decreases ms, 2
    {
      hide Render, RenderMembers, Printable, PrintableMembers, When, Tabs;
      ObjectText(ms, format, depth);
      ghost var before, d := Written(), depth;
      var newline, tabs := When(format, [NEWLINE]), When(format, Tabs(depth));
      ok := AppendOpen([OPEN_BRACE] + newline, 1);
      if !ok {
        return;
      }
      depth := depth + 1;
      Associate(before, [OPEN_BRACE] + newline, RenderMembers(ms, format, d + 1), tabs + [CLOSE_BRACE]);
      ok := PrintMembers(ms);
      if !ok {
        return;
      }
      ok := PrintWord(tabs + [CLOSE_BRACE]);
      depth := depth - 1;
    }

    method PrintMembers(ms: Members) returns (ok: bool)
      requires Valid() && PrintableMembers(ms)
      modifies this, buffer
      ensures Valid() && (buffer == old(buffer) || (fresh(buffer) && !noalloc)) && Limit() == old(Limit())
      ensures old(offset) <= offset
      ensures var text := RenderMembers(ms, format, old(depth));
        if ok then Written() == old(Written()) + text && depth == old(depth)
        else old(offset) + |text| + 2 > Limit()
      decreases ms, 1
    {
      hide RenderMembers, PrintableMembers;
      ghost var all := Written() + RenderMembers(ms, format, depth);
      var current := ms;
      while current.Member?
        invariant Valid() && (buffer == old(buffer) || (fresh(buffer) && !noalloc)) && Limit() == old(Limit())
        invariant PrintableMembers(current) && (current == ms || current < ms)
        invariant old(offset) <= offset && depth == old(depth)
        invariant Written() + RenderMembers(current, format, depth) == all
        decreases current
      {
        ok := PrintMember(current);
        if !ok {
          return;
        }
        current := current.next;
      }
      RenderMembersEmpty(format, depth);
      ok := true;
    }

    /** The indented key with its colon. */
    method PrintName(key: Option<seq<byte>>) returns (ok: bool)
      requires Valid() && (key.Some? ==> 0 !in key.value)
      modifies this`buffer, this`offset, buffer
      ensures Valid() && (buffer == old(buffer) || (fresh(buffer) && !noalloc)) && Limit() == old(Limit())
      ensures old(offset) <= offset
      ensures var text := MemberStart(BytesOf(key), format, depth);
        if ok then Written() == old(Written()) + text else old(offset) + |text| + 2 > Limit()
    {
      hide When, Tabs, Quoted;
      ghost var bytes := BytesOf(key);
      MemberStartText(bytes, format, depth);
      QuotedHasNoZero(bytes);
      var tabs, colon := When(format, Tabs(depth)), [COLON] + When(format, [TAB]);
      ghost var w0 := Written();
      if format {
        ok := AppendOpen(tabs, 0);
        if !ok {
          return;
        }
      }
      ghost var w1 := Written();
      ok := PrintString(key);
      if !ok {
        return;
      }
      UpdateOffset(w1, Quoted(bytes));
      ok := AppendOpen(colon, 0);
      AssociateName(w0, tabs, Quoted(bytes), colon);
    }

    /** One round: the name, the value, and the end of the line, with a comma if another member follows. */
    method PrintMember(current: Members) returns (ok: bool)
      requires Valid() && current.Member? && PrintableMembers(current)
      modifies this, buffer
      ensures Valid() && (buffer == old(buffer) || (fresh(buffer) && !noalloc)) && Limit() == old(Limit())
      ensures old(offset) <= offset
      ensures !ok ==> old(offset) + |RenderMembers(current, format, old(depth))| + 2 > Limit()
      ensures ok ==> depth == old(depth) && PrintableMembers(current.next)
      ensures ok ==>
        Written() + RenderMembers(current.next, format, depth) == old(Written()) + RenderMembers(current, format, depth)
      decreases current, 0
    {
      hide Render, RenderMembers, Printable, PrintableMembers, MemberStart, MemberEnd;
      MemberText(current, format, depth);
      var end := MemberEnd(current.next.Member?, format);
      ghost var name, text := MemberStart(current.key, format, depth), Render(current.value, format, depth);
      ghost var w0 := Written();
      ok := PrintName(Some(current.key));
      if !ok {
        return;
      }
      ghost var w1 := Written();
      ok := PrintValue(current.value);
      if !ok {
        return;
      }
      UpdateOffset(w1, text);
      ok := Append(end);
      AssociateMember(w0, name, text, end, RenderMembers(current.next, format, depth));
    }

    /** Writing a text with its zero makes the buffer hold it. */
    lemma Terminated(before: seq<byte>, text: seq<byte>)
      requires |before| == offset && offset + |text| < buffer.Length
      requires buffer[..offset + |text| + 1] == before + (text + [0])
      ensures Holds(before + text)
    {
      assert buffer[..offset + |text|] == buffer[..offset + |text| + 1][..offset + |text|] == before + text;
      assert buffer[offset + |text|] == (before + (text + [0]))[offset + |text|];
    }
  }

  /** A missing string is printed as an empty one. */
  function BytesOf(s: Option<seq<byte>>): seq<byte> {
    if s.Some? then s.value else []
  }

  lemma Associate(a: seq<byte>, b: seq<byte>, c: seq<byte>, d: seq<byte>)
    ensures a + b + c + d == a + (b + (c + d))
    ensures c == [] ==> a + b + d == a + (b + (c + d))
  {
  }

  lemma ArrayText(es: Elements, format: bool, depth: nat)
    requires PrintableElements(es)
    ensures Printable(Array(es))
    ensures Render(Array(es), format, depth) ==
      [OPEN_BRACKET] + (RenderElements(es, format, depth + 1) + [CLOSE_BRACKET])
  {
    hide RenderElements;
  }

  /** What follows an element if another one does. */
  function Comma(format: bool): seq<byte> {
    if format then [COMMA, SPACE] else [COMMA]
  }

  lemma ElementText(es: Elements, format: bool, depth: nat)
    requires es.Element? && PrintableElements(es)
    ensures Printable(es.value) && PrintableElements(es.next) && 0 !in Render(es.value, format, depth)
    ensures RenderElements(NoElement, format, depth) == []
    ensures RenderElements(es, format, depth) == Render(es.value, format, depth) +
      ((if es.next.Element? then Comma(format) else []) + RenderElements(es.next, format, depth))
  {
    RenderHasNoZero(es.value, format, depth);
    assert Separator(format) == Comma(format);
    hide Render, Comma, Separator;
    if es.next == NoElement {
      assert [] + RenderElements(es.next, format, depth) == [];
    }
  }

  lemma ObjectText(ms: Members, format: bool, depth: nat)
    requires PrintableMembers(ms)
    ensures Printable(Object(ms))
    ensures Render(Object(ms), format, depth) ==
      [OPEN_BRACE] + When(format, [NEWLINE]) +
      (RenderMembers(ms, format, depth + 1) + (When(format, Tabs(depth)) + [CLOSE_BRACE]))
  {
    hide RenderMembers, Tabs;
  }

  lemma RenderElementsEmpty(format: bool, depth: nat)
    ensures RenderElements(NoElement, format, depth) == []
  {
  }

  lemma RenderMembersEmpty(format: bool, depth: nat)
    ensures RenderMembers(NoMember, format, depth) == []
  {
  }

  lemma MemberText(ms: Members, format: bool, depth: nat)
    requires ms.Member? && PrintableMembers(ms)
    ensures 0 !in ms.key && Printable(ms.value) && PrintableMembers(ms.next)
    ensures 0 !in Render(ms.value, format, depth)
    ensures RenderMembers(ms, format, depth) ==
      MemberStart(ms.key, format, depth) + Render(ms.value, format, depth) + MemberEnd(ms.next.Member?, format) +
      RenderMembers(ms.next, format, depth)
  {
    RenderHasNoZero(ms.value, format, depth);
    hide Render, MemberStart, MemberEnd;
  }

  lemma MemberStartText(key: seq<byte>, format: bool, depth: nat)
    ensures MemberStart(key, format, depth) ==
      When(format, Tabs(depth)) + (Quoted(key) + ([COLON] + When(format, [TAB])))
    ensures !format ==> When(format, Tabs(depth)) == []
  {
    hide Quoted, Tabs;
  }

  lemma AssociateName(w: seq<byte>, a: seq<byte>, b: seq<byte>, c: seq<byte>)
    ensures w + a + b + c == w + (a + (b + c))
    ensures a == [] ==> w + b + c == w + (a + (b + c))
  {
  }

  lemma AssociateMember(w: seq<byte>, a: seq<byte>, b: seq<byte>, c: seq<byte>, d: seq<byte>)
    ensures w + a + b + c + d == w + (a + b + c + d)
  {
  }

  lemma {:induction false} DigitsFit(n: nat, k: nat)
    requires n < Power(k) && k > 0
    ensures |Digits(n)| <= k
    decreases k
  {
    if n >= 10 {
      DigitsFit(n / 10, k - 1);
    }
  }

  function Power(k: nat): nat {
    if k == 0 then 1 else 10 * Power(k - 1)
  }

  /** The temporary buffer of 26 bytes is large enough for every integer of 32 bits. */
  lemma DecimalFits(n: int)
    requires INT_MIN <= n <= INT_MAX
    ensures |Decimal(n)| <= 11
  {
    assert Power(5) == 100_000 && Power(10) == 10_000_000_000;
    DigitsFit(if n < 0 then -n else n, 10);
  }

  const DEFAULT_BUFFER_SIZE := 256

  /** The text and its zero, cut from the buffer: by reallocating, or by a copy with a zero behind it. */
  method CutToLength(p: PrintBuffer, hasRealloc: bool, ghost text: seq<byte>) returns (target: array<byte>)
    requires p.Valid() && p.offset == |text| && p.offset < p.buffer.Length
    requires p.buffer[..|text| + 1] == text + [0]
    ensures fresh(target) && target[..] == text + [0]
  {
    target := new byte[p.offset + 1];
    PrintBuffer.Copy(p.buffer, target, p.offset + 1);
    if !hasRealloc {
      target[p.offset] := 0;
    }
    assert target[..] == p.buffer[..|text| + 1];
  }

  /** Print to a buffer of its own, cut to the length of the text and its zero. */
  method Print(v: Json, format: bool, hasRealloc: bool) returns (printed: Option<array<byte>>)
    requires Printable(v)
    ensures printed.Some? <==> |Render(v, format, 0)| + 2 <= INT_MAX
    ensures printed.Some? ==> fresh(printed.value) && printed.value[..] == Render(v, format, 0) + [0]
  {
    hide Render, Printable;
    var p := new PrintBuffer(DEFAULT_BUFFER_SIZE, false, format, hasRealloc);
    assert p.Written() == [];
    ghost var text := Render(v, format, 0);
    assert [] + text == text;
    var ok := p.PrintValue(v);
    if !ok {
      return None;
    }
    RenderHasNoZero(v, format, 0);
    p.UpdateOffset([], text);
    assert p.buffer[..|text| + 1] == text + [0];
    var target := CutToLength(p, hasRealloc, text);
    printed := Some(target);
  }

  /** Print to the caller's buffer: it must have room for the text and two more bytes. */
  method PrintPreallocated(v: Json, target: array<byte>, format: bool) returns (ok: bool)
    requires Printable(v) && target.Length <= INT_MAX
    modifies target
    ensures ok == (|Render(v, format, 0)| + 2 <= target.Length)
    ensures ok ==> target[..|Render(v, format, 0)| + 1] == Render(v, format, 0) + [0]
  {
    hide Render, Printable;
    if target.Length == 0 {
      return false;
    }
    var p := new PrintBuffer.Over(target, format);
    assert p.Written() == [];
    ghost var text := Render(v, format, 0);
    assert [] + text == text;
    ok := p.PrintValue(v);
    if ok {
      assert target[..|text| + 1] == target[..|text|] + [target[|text|]];
    }
  }

  lemma CountOne(input: seq<byte>, i: nat)
    requires i < |input|
    ensures EscapeCharacters(input[..i + 1]) == EscapeCharacters(input[..i]) +
      if ShortEscape(input[i]).Some? then 1 else if input[i] < 32 then 5 else 0
  {
    assert input[..i + 1] == input[..i] + [input[i]];
    EscapeCharactersConcat(input[..i], [input[i]]);
    assert [input[i]][1..] == [];
  }

  lemma EscapeEnds(input: seq<byte>)
    ensures Escape(input[..0]) == [] && Escape(input[|input|..]) == []
    ensures input[..|input|] == input && input[0..] == input
  {
  }

  lemma EscapeOne(input: seq<byte>, i: nat)
    requires i < |input|
    ensures Escape(input[..i + 1]) == Escape(input[..i]) + EscapeByte(input[i])
    ensures Escape(input[i..]) == EscapeByte(input[i]) + Escape(input[i + 1..])
  {
    assert input[..i + 1] == input[..i] + [input[i]];
    EscapeConcat(input[..i], [input[i]]);
    assert [input[i]][1..] == [] && Escape([input[i]]) == EscapeByte(input[i]) + [];
    assert input[i..][1..] == input[i + 1..];
  }
}
