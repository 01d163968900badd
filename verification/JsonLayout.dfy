/**
 What the printer writes, as a written value: which spelling each character gets, which digits each number, and where
 white space stands in formatted text.
 */
module JsonLayout {
  import opened Bytes
  import opened JsonNumber
  import opened JsonNumeral
  import opened JsonSpelling
  import opened JsonString
  import opened JsonSyntax
  import opened JsonValue
  import Utf16

  // ---- Strings ----

  /** Two-character escapes where there are any, four lower-case digits for other control characters, else as it is. */
  function SpellingOf(b: byte): Spelling {
    if b == 34 || b == 92 then Short(b)
    else if b == 8 then Short(98)
    else if b == 9 then Short(116)
    else if b == 10 then Short(110)
    else if b == 12 then Short(102)
    else if b == 13 then Short(114)
    else if b < 32 then Single(Hex([48, 48, LOWER[b / 16], LOWER[b % 16]], [0, 0, b / 16, b % 16]))
    else Plain(b)
  }

  function CharactersOf(s: seq<byte>): seq<Character> {
    if s == [] then [] else [Character(SpellingOf(s[0]), [s[0]])] + CharactersOf(s[1..])
  }

  lemma SpellingMeans(b: byte)
    ensures Good(SpellingOf(b)) && Means(SpellingOf(b), [b])
    ensures SpellingOf(b) != Plain(34) && !SpellingOf(b).Malformed? && SpellingOf(b) != Lone
    ensures TextOf(SpellingOf(b)) == EscapeByte(b)
  {
    if SpellingOf(b).Short? {
      ShortMeans(b);
    } else if SpellingOf(b).Single? {
      ControlMeans(b);
      ControlText(b);
    }
  }

  lemma ShortMeans(b: byte)
    requires SpellingOf(b).Short?
    ensures Good(SpellingOf(b)) && Means(SpellingOf(b), [b])
  {
    var i := if b == 34 then 0 else if b == 92 then 1 else if b == 8 then 3 else if b == 12 then 4
      else if b == 10 then 5 else if b == 13 then 6 else 7;
    assert SpellingOf(b).letter == LETTERS[i] && b == MEANINGS[i];
  }

  lemma ControlMeans(b: byte)
    requires SpellingOf(b).Single?
    ensures Good(SpellingOf(b)) && Means(SpellingOf(b), [b])
  {
    var h := SpellingOf(b).hex;
    assert b < 32;
    DigitsOfControl(b);
    assert Unit(h) == b;
  }

  lemma DigitsOfControl(b: byte)
    requires b < 32
    ensures GoodHex(Hex([48, 48, LOWER[b / 16], LOWER[b % 16]], [0, 0, b / 16, b % 16]))
  {
    assert LOWER[0] == 48;
    hide LOWER;
  }

  lemma ControlText(b: byte)
    requires SpellingOf(b).Single?
    ensures TextOf(SpellingOf(b)) == EscapeByte(b)
  {
    var h: nat := b;
    assert h / 16 / 16 / 16 == 0 && h / 16 / 16 % 16 == 0;
    LowerDigit(0);
    LowerDigit(h / 16);
    LowerDigit(h % 16);
    hide LOWER, Utf16.HexDigit;
  }

  lemma LowerDigit(d: nat)
    requires d < 16
    ensures Utf16.HexDigit(d) == LOWER[d]
  {
  }

  lemma {:induction false} CharactersMean(s: seq<byte>)
    ensures Spelled(CharactersOf(s)) && TextsOf(CharactersOf(s)) == Escape(s) && BytesOf(CharactersOf(s)) == s
    ensures forall c | c in CharactersOf(s) ::
      c.spelling != Plain(34) && !c.spelling.Malformed? && c.spelling != Lone
  {
    hide SpellingOf, Good, Means, TextOf, EscapeByte;
    if s != [] {
      SpellingMeans(s[0]);
      CharactersMean(s[1..]);
    }
  }

  lemma CharactersAreText(s: seq<byte>)
    ensures GoodText(CharactersOf(s)) && StringText(CharactersOf(s)) == Quoted(s)
  {
    hide Escape, TextsOf, Spelled, Enclosed;
    CharactersMean(s);
    SpelledIsEnclosed(CharactersOf(s));
    assert forall i | 0 <= i < |CharactersOf(s)| :: CharactersOf(s)[i] in CharactersOf(s);
  }

  // ---- Numbers ----

  /** The digits of a whole number without leading zeros. */
  lemma {:induction false} DigitsAreShortest(n: nat)
    ensures AreDigits(Digits(n)) && Whole(Digits(n)) == n && (|Digits(n)| > 1 ==> Digits(n)[0] != 48)
  {
    if n >= 10 {
      DigitsAreShortest(n / 10);
      if n / 10 < 10 {
        assert Digits(n / 10) == [48 + n / 10];
      }
    }
    DigitsRead(n);
    WholeIsDigitsValue(Digits(n));
  }

  /** A sign for negative numbers only, and no more digits than needed. */
  function NumeralOf(n: int): Numeral {
    Numeral(if n < 0 then [45] else [], Digits(if n < 0 then -n else n), None, None)
  }

  lemma NumeralOfIsGood(n: int)
    ensures var w := NumeralOf(n);
      GoodNumeral(w) && GoodWritten(Figure(w)) && FractionDigits(w) == [] && PowerOf(w) == 0 && AreDigits([]) &&
      Whole(w.whole) == (if n < 0 then -n else n) && (w.sign == [45] <==> n < 0)
  {
    DigitsAreShortest(if n < 0 then -n else n);
    hide Digits, Whole;
  }

  lemma NumeralOfText(n: int)
    ensures NumeralText(NumeralOf(n)) == Decimal(n)
  {
    hide Digits;
    var w := NumeralOf(n);
    assert NumeralText(w) == w.sign + w.whole + [] + [] == w.sign + w.whole;
    assert [] + w.whole == w.whole;
  }

  lemma NothingAndOne()
    ensures AreDigits([]) && Part([]) == 0.0 && Pow10(0) == 1.0
  {
  }

  lemma ByOne(x: real)
    ensures Times(x + 0.0, 1.0) == x
  {
  }

  lemma NumeralOfMeans(n: int)
    ensures var w := Figure(NumeralOf(n));
      GoodWritten(w) && NumeralText(NumeralOf(n)) == Decimal(n)
    ensures GoodNumeral(NumeralOf(n)) && NumeralValue(NumeralOf(n)) == n as real
  {
    hide *;
    NumeralOfIsGood(n);
    NumeralOfText(n);
    NumeralValueMeans(NumeralOf(n));
    NothingAndOne();
    ByOne((if n < 0 then -n else n) as real);
  }

  // ---- Values ----

  /** A new line, indented by tabs. */
  function NewLine(format: bool, depth: nat): seq<byte> {
    if format then [10] + Tabs(depth) else []
  }

  /**
   Formatted, the members of an object stand on lines of their own, indented by one tab for each object or array around
   them, with a tab behind the colon; the elements of an array stand on one line, with a space behind each comma.
   Unformatted there is no white space.
   */
  function Layout(v: Json, format: bool, depth: nat): Written
    requires Restorable(v)
  {
    match v
    case Number(value) => Figure(NumeralOf(ValueInt(value)))
    case String(bytes) => Written.Text(CharactersOf(bytes))
    case Array(es) => List([], LayoutItems(es, format, depth + 1, []))
    case Object(ms) => Record(NewLine(format, depth), LayoutFields(ms, format, depth + 1))
    case _ => Word(v)
  }

  function LayoutItems(es: Elements, format: bool, depth: nat, before: seq<byte>): Items
    requires RestorableElements(es)
  {
    if es == NoElement then NoItem
    else
      Item(before, Layout(es.value, format, depth), [],
           LayoutItems(es.next, format, depth, if format then [32] else []))
  }

  function LayoutFields(ms: Members, format: bool, depth: nat): Fields
    requires RestorableMembers(ms) && depth > 0
  {
    if ms == NoMember then NoField
    else
      Field(NewLine(format, depth), CharactersOf(ms.key), [], if format then [9] else [],
            Layout(ms.value, format, depth),
            if ms.next == NoMember then NewLine(format, depth - 1) else [], LayoutFields(ms.next, format, depth))
  }

  lemma NewLineIsWhite(format: bool, depth: nat)
    ensures AllWhite(NewLine(format, depth))
    ensures NewLine(format, depth) == When(format, [NEWLINE]) + When(format, Tabs(depth))
    ensures AllWhite([]) && AllWhite(if format then [32] else []) && AllWhite(if format then [9] else [])
  {
  }

  // ---- The printed text is this layout ----

  lemma {:induction false} CStringWhole(s: seq<byte>)
    requires 0 !in s
    ensures CString(s) == s
  {
    if s != [] {
      CStringWhole(s[1..]);
    }
  }

  /** The layout of `v` is well written, means `v`, and is the printed text. */
  ghost predicate LaidOut(v: Json, format: bool, depth: nat)
    requires Restorable(v)
  {
    var w := Layout(v, format, depth);
    GoodWritten(w) && Meaning(w) == v && WrittenText(w) == Render(v, format, depth)
  }

  ghost predicate ItemsLaidOut(es: Elements, format: bool, depth: nat, before: seq<byte>)
    requires RestorableElements(es)
  {
    var items := LayoutItems(es, format, depth, before);
    GoodItems(items) && ItemsMeaning(items) == es && ItemsText(items) == RenderElements(es, format, depth)
  }

  ghost predicate FieldsLaidOut(ms: Members, format: bool, depth: nat)
    requires RestorableMembers(ms) && depth > 0
  {
    var fields := LayoutFields(ms, format, depth);
    GoodFields(fields) && FieldsMeaning(fields) == ms &&
    (fields.Field? ==>
       When(format, Tabs(depth)) + FieldsText(fields) ==
       RenderMembers(ms, format, depth) + When(format, Tabs(depth - 1)))
  }

  lemma NumberLaidOut(value: real, format: bool, depth: nat)
    requires IsInt32(value)
    ensures LaidOut(Number(value), format, depth)
  {
    hide NumeralValue, NumeralText, NumberOf, Decimal, NumeralOf, GoodNumeral;
    NumeralOfMeans(ValueInt(value));
    Int32InRange(value);
    hide ValueInt;
  }

  lemma StringLaidOut(bytes: seq<byte>, format: bool, depth: nat)
    requires 0 !in bytes
    ensures LaidOut(String(bytes), format, depth)
  {
    hide StringText, CharactersOf, BytesOf, CString, GoodText, Quoted;
    CharactersAreText(bytes);
    CharactersMean(bytes);
    CStringWhole(bytes);
  }

  lemma WordLaidOut(v: Json, format: bool, depth: nat)
    requires v == Null || v == False || v == True
    ensures LaidOut(v, format, depth)
  {
  }

  lemma ArrayLaidOut(es: Elements, format: bool, depth: nat)
    requires RestorableElements(es) && ItemsLaidOut(es, format, depth + 1, [])
    ensures LaidOut(Array(es), format, depth)
  {
    hide ItemsText, RenderElements, AllWhite, RestorableElements, GoodItems, ItemsMeaning;
    NewLineIsWhite(format, depth);
    FirstItem(es, format, depth + 1, []);
  }

  lemma FirstItem(es: Elements, format: bool, depth: nat, before: seq<byte>)
    requires RestorableElements(es)
    ensures var items := LayoutItems(es, format, depth, before);
      (items == NoItem <==> es == NoElement) && (items.Item? ==> items.before == before)
    ensures es == NoElement ==> RenderElements(es, format, depth) == []
  {
  }

  lemma FirstField(ms: Members, format: bool, depth: nat)
    requires RestorableMembers(ms) && depth > 0
    ensures var fields := LayoutFields(ms, format, depth);
      (fields == NoField <==> ms == NoMember) && (fields.Field? ==> fields.before == NewLine(format, depth))
    ensures ms == NoMember ==> RenderMembers(ms, format, depth) == []
  {
  }

  lemma ObjectParts(ms: Members, format: bool, depth: nat)
    requires RestorableMembers(ms)
    ensures var w, fields := Layout(Object(ms), format, depth), LayoutFields(ms, format, depth + 1);
      w == Record(NewLine(format, depth), fields) &&
      WrittenText(w) ==
        [123] + (if fields == NoField then NewLine(format, depth) else fields.before + FieldsText(fields)) + [125] &&
      Render(Object(ms), format, depth) ==
        [123] + When(format, [NEWLINE]) + RenderMembers(ms, format, depth + 1) + When(format, Tabs(depth)) + [125]
  {
    hide FieldsText, RenderMembers, RestorableMembers, LayoutFields;
  }

  lemma RegroupObject(a: seq<byte>, n: seq<byte>, t: seq<byte>, f: seq<byte>, m: seq<byte>, u: seq<byte>, b: seq<byte>)
    requires t + f == m + u
    ensures a + (n + t + f) + b == a + n + m + u + b
  {
    assert n + t + f == n + (t + f);
  }

  lemma ObjectLaidOut(ms: Members, format: bool, depth: nat)
    requires RestorableMembers(ms) && FieldsLaidOut(ms, format, depth + 1)
    ensures LaidOut(Object(ms), format, depth)
  {
    hide FieldsText, RenderMembers, AllWhite, RestorableMembers, LayoutFields, GoodFields, FieldsMeaning, NewLine, Tabs,
      When, WrittenText, Render;
    NewLineIsWhite(format, depth);
    NewLineIsWhite(format, depth + 1);
    FirstField(ms, format, depth + 1);
    ObjectParts(ms, format, depth);
    if ms.Member? {
      RegroupObject([123], When(format, [NEWLINE]), When(format, Tabs(depth + 1)),
        FieldsText(LayoutFields(ms, format, depth + 1)), RenderMembers(ms, format, depth + 1),
        When(format, Tabs(depth)), [125]);
    }
  }

  /** The text of a value is its layout, written down, and the layout means the value. */
  lemma {:induction false} RenderIsLayout(v: Json, format: bool, depth: nat)
    requires Restorable(v)
    ensures var w := Layout(v, format, depth);
      GoodWritten(w) && Meaning(w) == v && WrittenText(w) == Render(v, format, depth)
    ensures LaidOut(v, format, depth)
    decreases v
  {
    RestorableParts(v);
    LaidOutMeans(v, format, depth);
    hide *;
    match v
    case Number(value) => NumberLaidOut(value, format, depth);
    case String(bytes) => StringLaidOut(bytes, format, depth);
    case Array(es) =>
      ItemsAreElements(es, format, depth + 1, []);
      ArrayLaidOut(es, format, depth);
    case Object(ms) =>
      FieldsAreMembers(ms, format, depth + 1);
      ObjectLaidOut(ms, format, depth);
    case _ => WordLaidOut(v, format, depth);
  }

  lemma RestorableParts(v: Json)
    requires Restorable(v)
    ensures match v
      case Number(value) => IsInt32(value)
      case String(bytes) => 0 !in bytes
      case Array(es) => RestorableElements(es)
      case Object(ms) => RestorableMembers(ms)
      case _ => v == Null || v == False || v == True
  {
  }

  lemma LaidOutMeans(v: Json, format: bool, depth: nat)
    requires Restorable(v)
    ensures var w := Layout(v, format, depth);
      LaidOut(v, format, depth) <==>
        (GoodWritten(w) && Meaning(w) == v && WrittenText(w) == Render(v, format, depth))
  {
  }

  lemma ElementParts(es: Elements)
    requires RestorableElements(es) && es.Element?
    ensures Restorable(es.value) && RestorableElements(es.next)
  {
  }

  lemma MemberParts(ms: Members)
    requires RestorableMembers(ms) && ms.Member?
    ensures 0 !in ms.key && Restorable(ms.value) && RestorableMembers(ms.next)
  {
  }

  lemma {:induction false} ItemsAreElements(es: Elements, format: bool, depth: nat, before: seq<byte>)
    requires RestorableElements(es) && AllWhite(before)
    ensures ItemsLaidOut(es, format, depth, before)
    decreases es
  {
    hide *;
    if es == NoElement {
      NothingLaidOut(format, depth, before);
    } else {
      ElementParts(es);
      var gap := if format then [32] else [];
      NewLineIsWhite(format, depth);
      RenderIsLayout(es.value, format, depth);
      ItemsAreElements(es.next, format, depth, gap);
      OneMoreItem(es, format, depth, before);
    }
  }

  lemma NothingLaidOut(format: bool, depth: nat, before: seq<byte>)
    ensures ItemsLaidOut(NoElement, format, depth, before)
    ensures depth > 0 ==> FieldsLaidOut(NoMember, format, depth)
  {
  }

  lemma OneMoreItem(es: Elements, format: bool, depth: nat, before: seq<byte>)
    requires RestorableElements(es) && es.Element? && AllWhite(before)
    requires Restorable(es.value) && LaidOut(es.value, format, depth) && RestorableElements(es.next)
    requires ItemsLaidOut(es.next, format, depth, if format then [32] else [])
    ensures ItemsLaidOut(es, format, depth, before)
  {
    hide Layout, Render, WrittenText, Meaning, GoodWritten, Restorable;
    NewLineIsWhite(format, depth);
    FirstItem(es.next, format, depth, if format then [32] else []);
    var value := Layout(es.value, format, depth);
    assert WrittenText(value) + [] == WrittenText(value);
    hide AllWhite;
  }

  lemma {:induction false} FieldsAreMembers(ms: Members, format: bool, depth: nat)
    requires RestorableMembers(ms) && depth > 0
    ensures FieldsLaidOut(ms, format, depth)
    decreases ms
  {
    hide *;
    if ms == NoMember {
      NothingLaidOut(format, depth, []);
    } else {
      MemberParts(ms);
      RenderIsLayout(ms.value, format, depth);
      FieldsAreMembers(ms.next, format, depth);
      OneMoreField(ms, format, depth);
    }
  }

  lemma RegroupMore(t: seq<byte>, k: seq<byte>, c: seq<byte>, g: seq<byte>, v: seq<byte>, comma: seq<byte>,
      n: seq<byte>, f: seq<byte>, m: seq<byte>, u: seq<byte>)
    requires t + f == m + u
    ensures t + (k + [] + c + g + v + [] + (comma + (n + t) + f)) == t + k + c + g + v + (comma + n) + m + u
  {
    assert comma + (n + t) + f == comma + n + (t + f);
  }

  lemma RegroupLast(t: seq<byte>, k: seq<byte>, c: seq<byte>, g: seq<byte>, v: seq<byte>, n: seq<byte>, u: seq<byte>)
    ensures t + (k + [] + c + g + v + (n + u) + []) == t + k + c + g + v + ([] + n) + [] + u
  {
  }

  lemma FieldTexts(ms: Members, format: bool, depth: nat)
    requires RestorableMembers(ms) && ms.Member? && depth > 0 && Restorable(ms.value) && RestorableMembers(ms.next)
    ensures var fields, next := LayoutFields(ms, format, depth), LayoutFields(ms.next, format, depth);
      FieldsText(fields) ==
      StringText(CharactersOf(ms.key)) + [] + [58] + (if format then [9] else []) +
      WrittenText(Layout(ms.value, format, depth)) +
      (if next == NoField then NewLine(format, depth - 1) else []) +
      if next == NoField then [] else [44] + next.before + FieldsText(next)
    ensures RenderMembers(ms, format, depth) ==
      When(format, Tabs(depth)) + Quoted(ms.key) + [58] + When(format, [9]) + Render(ms.value, format, depth) +
      ((if ms.next.Member? then [44] else []) + When(format, [10])) + RenderMembers(ms.next, format, depth)
  {
    FirstField(ms.next, format, depth);
    hide Layout, Render, WrittenText, Restorable, NewLine, StringText, CharactersOf, Quoted, Tabs;
  }

  lemma OneMoreFieldText(ms: Members, format: bool, depth: nat)
    requires RestorableMembers(ms) && ms.Member? && depth > 0
    requires Restorable(ms.value) && RestorableMembers(ms.next)
    requires WrittenText(Layout(ms.value, format, depth)) == Render(ms.value, format, depth)
    requires var next := LayoutFields(ms.next, format, depth);
      next.Field? ==>
        When(format, Tabs(depth)) + FieldsText(next) ==
        RenderMembers(ms.next, format, depth) + When(format, Tabs(depth - 1))
    ensures When(format, Tabs(depth)) + FieldsText(LayoutFields(ms, format, depth)) ==
      RenderMembers(ms, format, depth) + When(format, Tabs(depth - 1))
  {
    hide *;
    FieldTexts(ms, format, depth);
    FirstField(ms.next, format, depth);
    CharactersAreText(ms.key);
    NewLineIsWhite(format, depth);
    NewLineIsWhite(format, depth - 1);
    WhenMeans(format, [9]);
    NewLineMark();
    var t, u, n := When(format, Tabs(depth)), When(format, Tabs(depth - 1)), When(format, [10]);
    var k, g, v := Quoted(ms.key), When(format, [9]), Render(ms.value, format, depth);
    if ms.next == NoMember {
      RegroupLast(t, k, [58], g, v, n, u);
    } else {
      RegroupMore(t, k, [58], g, v, [44], n, FieldsText(LayoutFields(ms.next, format, depth)),
        RenderMembers(ms.next, format, depth), u);
    }
  }

  lemma NewLineMark()
    ensures NEWLINE == 10
  {
  }

  lemma WhenMeans(format: bool, text: seq<byte>)
    ensures When(format, text) == if format then text else []
  {
  }

  lemma OneMoreField(ms: Members, format: bool, depth: nat)
    requires RestorableMembers(ms) && ms.Member? && depth > 0 && 0 !in ms.key
    requires Restorable(ms.value) && LaidOut(ms.value, format, depth) && RestorableMembers(ms.next)
    requires FieldsLaidOut(ms.next, format, depth)
    ensures FieldsLaidOut(ms, format, depth)
  {
    hide Layout, Render, WrittenText, Meaning, GoodWritten, Restorable, NewLine, StringText, CharactersOf, BytesOf,
      CString, GoodText, Quoted, Tabs, AllWhite, FieldsText, RenderMembers, When;
    CharactersAreText(ms.key);
    CharactersMean(ms.key);
    CStringWhole(ms.key);
    NewLineIsWhite(format, depth);
    NewLineIsWhite(format, depth - 1);
    FirstField(ms.next, format, depth);
    OneMoreFieldText(ms, format, depth);
  }
}
