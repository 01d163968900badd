/**
 The grammar the parser accepts, as functions of the remaining input: the value and how much of the input it takes,
 or how far the parser got when it gave up.
 */
module JsonParse {
  import opened Bytes
  import opened JsonNumber
  import opened JsonString
  import opened JsonValue

  const NESTING_LIMIT := 1000

  datatype Outcome = Success(value: Json, used: nat) | Failure(at: nat)

  /** The children read, and the position of the character that ended the list. */
  datatype ElementsOutcome = SomeElements(elements: Elements, end: nat) | NoElements(at: nat)

  datatype MembersOutcome = SomeMembers(members: Members, end: nat) | NoMembers(at: nat)

  /** One element or member, and the position of the next character behind it that is not white. */
  datatype ElementHead = ElementHead(value: Json, end: nat) | BadElement(at: nat)

  datatype MemberHead = MemberHead(key: seq<byte>, value: Json, end: nat) | BadMember(at: nat)

  /** A name, and the position of the colon behind it. */
  datatype NameHead = NameHead(key: seq<byte>, colon: nat) | BadName(at: nat)

  predicate IsWhite(b: byte) {
    b <= 32
  }

  function WhiteRun(s: seq<byte>): (n: nat)
    ensures n <= |s|
    ensures n < |s| ==> !IsWhite(s[n])
  {
    if s == [] || !IsWhite(s[0]) then 0 else 1 + WhiteRun(s[1..])
  }

  /** White space is skipped, but never to the very end: the last character stays. */
  function Skip(s: seq<byte>): (n: nat)
    ensures s != [] ==> n < |s|
    ensures s == [] ==> n == 0
  {
    if s != [] && WhiteRun(s) == |s| then |s| - 1 else WhiteRun(s)
  }

  predicate At(s: seq<byte>, i: nat, b: byte) {
    i < |s| && s[i] == b
  }

  function ParseValue(s: seq<byte>, depth: nat): (r: Outcome)
    ensures r.Success? ==> 1 <= r.used <= |s|
    ensures r.Failure? ==> r.at <= |s|
    decreases |s|, 3
  {
    if NULL_TEXT <= s then Success(Null, |NULL_TEXT|)
    else if FALSE_TEXT <= s then Success(False, |FALSE_TEXT|)
    else if TRUE_TEXT <= s then Success(True, |TRUE_TEXT|)
    else if At(s, 0, QUOTE) then
      match ParseString(s)
      case Parsed(bytes, used) => Success(String(CString(bytes)), used)
      case Failed(at) => Failure(at)
    else if s != [] && (s[0] == MINUS || IsDigit(s[0])) then
      var c := ParseNumber(s);
      if c.used == 0 then Failure(0) else Success(NumberOf(c.value), c.used)
    else if At(s, 0, OPEN_BRACKET) then ParseArray(s, depth)
    else if At(s, 0, OPEN_BRACE) then ParseObject(s, depth)
    else Failure(0)
  }

  function ParseArray(s: seq<byte>, depth: nat): (r: Outcome)
    requires At(s, 0, OPEN_BRACKET)
    ensures r.Success? ==> 1 <= r.used <= |s|
    ensures r.Failure? ==> r.at <= |s|
    decreases |s|, 2
  {
    var white := Skip(s[1..]);
    if depth >= NESTING_LIMIT then Failure(0)
    else if At(s, 1 + white, CLOSE_BRACKET) then Success(Array(NoElement), white + 2)
    else if |s| == 1 then Failure(0)
    else
      match ParseElements(s[white..], depth + 1)
      case SomeElements(elements, end) => Success(Array(elements), white + end + 1)
      case NoElements(at) => Failure(white + at)
  }

  function NextElement(s: seq<byte>, depth: nat): (r: ElementHead)
    requires s != []
    ensures r.ElementHead? ==> 1 <= r.end <= |s|
    ensures r.BadElement? ==> r.at <= |s|
    decreases |s|, 0
  {
    var start := 1 + Skip(s[1..]);
    match ParseValue(s[start..], depth)
    case Failure(at) => BadElement(start + at)
    case Success(value, used) => ElementHead(value, start + used + Skip(s[start + used..]))
  }

  /** Elements up to the closing bracket; the first character of `s` is the one in front of the first element. */
  function ParseElements(s: seq<byte>, depth: nat): (r: ElementsOutcome)
    requires s != []
    ensures r.SomeElements? ==> At(s, r.end, CLOSE_BRACKET)
    ensures r.NoElements? ==> r.at <= |s|
    decreases |s|, 1
  {
    match NextElement(s, depth)
    case BadElement(at) => NoElements(at)
    case ElementHead(value, end) =>
      if At(s, end, COMMA) then
        match ParseElements(s[end..], depth)
        case SomeElements(next, last) => SomeElements(Element(value, next), end + last)
        case NoElements(at) => NoElements(end + at)
      else if At(s, end, CLOSE_BRACKET) then SomeElements(Element(value, NoElement), end)
      else NoElements(end)
  }

  function ParseObject(s: seq<byte>, depth: nat): (r: Outcome)
    requires At(s, 0, OPEN_BRACE)
    ensures r.Success? ==> 1 <= r.used <= |s|
    ensures r.Failure? ==> r.at <= |s|
    decreases |s|, 2
  {
    var white := Skip(s[1..]);
    if depth >= NESTING_LIMIT then Failure(0)
    else if At(s, 1 + white, CLOSE_BRACE) then Success(Object(NoMember), white + 2)
    else if |s| == 1 then Failure(0)
    else
      match ParseMembers(s[white..], depth + 1)
      case SomeMembers(members, end) => Success(Object(members), white + end + 1)
      case NoMembers(at) => Failure(white + at)
  }

  function NextName(s: seq<byte>): (r: NameHead)
    requires s != []
    ensures r.NameHead? ==> 1 <= r.colon < |s|
    ensures r.BadName? ==> r.at <= |s|
  {
    if |s| == 1 then BadName(0)
    else
      var start := 1 + Skip(s[1..]);
      match ParseString(s[start..])
      case Failed(at) => BadName(start + at)
      case Parsed(key, used) =>
        var colon := start + used + Skip(s[start + used..]);
        if At(s, colon, COLON) then NameHead(CString(key), colon) else BadName(colon)
  }

  function NextMember(s: seq<byte>, depth: nat): (r: MemberHead)
    requires s != []
    ensures r.MemberHead? ==> 1 <= r.end <= |s|
    ensures r.BadMember? ==> r.at <= |s|
    decreases |s|, 0
  {
    match NextName(s)
    case BadName(at) => BadMember(at)
    case NameHead(key, colon) =>
      var start := colon + 1 + Skip(s[colon + 1..]);
      match ParseValue(s[start..], depth)
      case Failure(at) => BadMember(start + at)
      case Success(value, used) => MemberHead(key, value, start + used + Skip(s[start + used..]))
  }

  /** Members up to the closing brace; the first character of `s` is the one in front of the first member. */
  function ParseMembers(s: seq<byte>, depth: nat): (r: MembersOutcome)
    requires s != []
    ensures r.SomeMembers? ==> At(s, r.end, CLOSE_BRACE)
    ensures r.NoMembers? ==> r.at <= |s|
    decreases |s|, 1
  {
    match NextMember(s, depth)
    case BadMember(at) => NoMembers(at)
    case MemberHead(key, value, end) =>
      if At(s, end, COMMA) then
        match ParseMembers(s[end..], depth)
        case SomeMembers(next, last) => SomeMembers(Member(key, value, next), end + last)
        case NoMembers(at) => NoMembers(end + at)
      else if At(s, end, CLOSE_BRACE) then SomeMembers(Member(key, value, NoMember), end)
      else NoMembers(end)
  }

  // ---- A whole text ----

  const BOM: seq<byte> := [0xEF, 0xBB, 0xBF]

  /** A byte order mark is skipped only in front of at least two more characters. */
  function BomLength(text: seq<byte>): nat {
    if |text| > 4 && BOM <= text then 3 else 0
  }

  /** A value and the position behind it, or the error position. */
  datatype Document = Document(value: Json, end: nat) | Error(position: nat)

  function ErrorAt(text: seq<byte>, at: nat): Document {
    Error(if at < |text| then at else if text != [] then |text| - 1 else 0)
  }

  function ParseText(text: seq<byte>, requireNullTerminated: bool): Document {
    if text == [] then Error(0)
    else
      var bom := BomLength(text);
      var start := bom + Skip(text[bom..]);
      match ParseValue(text[start..], 0)
      case Failure(at) => ErrorAt(text, start + at)
      case Success(value, used) =>
        var end := start + used;
        var last := if requireNullTerminated then end + Skip(text[end..]) else end;
        if requireNullTerminated && !At(text, last, 0) then ErrorAt(text, last) else Document(value, last)
  }
}
