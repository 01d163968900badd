/**
 JSON texts as they can be written: with any white space between the parts, any spelling of strings, and any numerals.
 The parser reads every one of them as what it means.
 */
module JsonSyntax {
  import opened Bytes
  import opened JsonNumeral
  import opened JsonSpelling
  import opened JsonValue

  /** A written value. The gap of a list or record stands inside the brackets of an empty one. */
  datatype Written =
    | Word(word: Json)
    | Figure(numeral: Numeral)
    | Text(characters: seq<Character>)
    | List(gap: seq<byte>, items: Items)
    | Record(gap: seq<byte>, fields: Fields)

  datatype Items = NoItem | Item(before: seq<byte>, value: Written, after: seq<byte>, next: Items)

  datatype Fields =
    | NoField
    | Field(before: seq<byte>, name: seq<Character>, middle: seq<byte>, gap: seq<byte>, value: Written,
        after: seq<byte>, next: Fields)

  predicate AllWhite(s: seq<byte>) {
    forall i | 0 <= i < |s| :: s[i] <= 32
  }

  ghost predicate GoodText(cs: seq<Character>) {
    Spelled(cs) && LoneIsLast(cs, []) && Enclosed(TextsOf(cs))
  }

  ghost predicate GoodWritten(w: Written) {
    match w
    case Word(word) => word == Null || word == False || word == True
    case Figure(n) => GoodNumeral(n) && n.sign != [43] && (n.sign == [45] || n.whole != [])
    case Text(cs) => GoodText(cs)
    case List(gap, items) => AllWhite(gap) && GoodItems(items)
    case Record(gap, fields) => AllWhite(gap) && GoodFields(fields)
  }

  ghost predicate GoodItems(items: Items) {
    items.Item? ==>
      AllWhite(items.before) && AllWhite(items.after) && GoodWritten(items.value) && GoodItems(items.next)
  }

  ghost predicate GoodFields(fields: Fields) {
    fields.Field? ==>
      AllWhite(fields.before) && AllWhite(fields.middle) && AllWhite(fields.gap) && AllWhite(fields.after) &&
      GoodText(fields.name) && GoodWritten(fields.value) && GoodFields(fields.next)
  }

  function WordText(word: Json): seq<byte> {
    if word == False then [102, 97, 108, 115, 101]
    else if word == True then [116, 114, 117, 101]
    else [110, 117, 108, 108]
  }

  function StringText(cs: seq<Character>): seq<byte> {
    [34] + TextsOf(cs) + [34]
  }

  function WrittenText(w: Written): seq<byte> {
    match w
    case Word(word) => WordText(word)
    case Figure(n) => NumeralText(n)
    case Text(cs) => StringText(cs)
    case List(gap, items) => [91] + (if items == NoItem then gap else items.before + ItemsText(items)) + [93]
    case Record(gap, fields) => [123] + (if fields == NoField then gap else fields.before + FieldsText(fields)) + [125]
  }

  /** A list of items without the gap in front of the first. */
  function ItemsText(items: Items): seq<byte> {
    if items == NoItem then []
    else
      WrittenText(items.value) + items.after +
      if items.next == NoItem then [] else [44] + items.next.before + ItemsText(items.next)
  }

  function FieldsText(fields: Fields): seq<byte> {
    if fields == NoField then []
    else
      StringText(fields.name) + fields.middle + [58] + fields.gap + WrittenText(fields.value) + fields.after +
      if fields.next == NoField then [] else [44] + fields.next.before + FieldsText(fields.next)
  }

  /** What is written: strings end at their first zero character, and numerals out of range are infinite. */
  function Meaning(w: Written): Json
    requires GoodWritten(w)
  {
    match w
    case Word(word) => word
    case Figure(n) => NumberOf(NumeralValue(n))
    case Text(cs) => String(CString(BytesOf(cs)))
    case List(_, items) => Array(ItemsMeaning(items))
    case Record(_, fields) => Object(FieldsMeaning(fields))
  }

  function ItemsMeaning(items: Items): Elements
    requires GoodItems(items)
  {
    if items == NoItem then NoElement else Element(Meaning(items.value), ItemsMeaning(items.next))
  }

  function FieldsMeaning(fields: Fields): Members
    requires GoodFields(fields)
  {
    if fields == NoField then NoMember
    else Member(CString(BytesOf(fields.name)), Meaning(fields.value), FieldsMeaning(fields.next))
  }
}
