/** JSON values, and the text of a value: the reference for the printer. */
module JsonValue {
  import opened Bytes
  import opened JsonNumber
  import opened JsonString

  /** The children of an array or object form a linked list. */
  datatype Json =
    | Null
    | False
    | True
    | Number(value: real)
    | Infinite(negative: bool)
    | NotANumber
    | String(bytes: seq<byte>)
    | Raw(bytes: seq<byte>)
    | Array(elements: Elements)
    | Object(members: Members)

  datatype Elements = NoElement | Element(value: Json, next: Elements)

  datatype Members = NoMember | Member(key: seq<byte>, value: Json, next: Members)

  function Max(a: nat, b: nat): nat {
    if a > b then a else b
  }

  /** How many arrays and objects are nested in each other. */
  function Depth(v: Json): nat {
    match v
    case Array(elements) => 1 + ElementsDepth(elements)
    case Object(members) => 1 + MembersDepth(members)
    case _ => 0
  }

  function ElementsDepth(es: Elements): nat {
    match es
    case NoElement => 0
    case Element(value, next) => Max(Depth(value), ElementsDepth(next))
  }

  function MembersDepth(ms: Members): nat {
    match ms
    case NoMember => 0
    case Member(_, value, next) => Max(Depth(value), MembersDepth(next))
  }

  /** All strings and keys are C strings. */
  predicate CStrings(v: Json) {
    match v
    case String(bytes) => 0 !in bytes
    case Raw(bytes) => 0 !in bytes
    case Array(es) => CStringElements(es)
    case Object(ms) => CStringMembers(ms)
    case _ => true
  }

  predicate CStringElements(es: Elements) {
    es.Element? ==> CStrings(es.value) && CStringElements(es.next)
  }

  predicate CStringMembers(ms: Members) {
    ms.Member? ==> 0 !in ms.key && CStrings(ms.value) && CStringMembers(ms.next)
  }

  /** All numbers are integers of 32 bits. */
  predicate Int32Numbers(v: Json) {
    match v
    case Number(value) => IsInt32(value)
    case Infinite(_) => false
    case NotANumber => false
    case Array(es) => Int32Elements(es)
    case Object(ms) => Int32Members(ms)
    case _ => true
  }

  predicate Int32Elements(es: Elements) {
    es.Element? ==> Int32Numbers(es.value) && Int32Elements(es.next)
  }

  predicate Int32Members(ms: Members) {
    ms.Member? ==> Int32Numbers(ms.value) && Int32Members(ms.next)
  }

  /** No number is infinite or undefined. */
  predicate Finite(v: Json) {
    match v
    case Infinite(_) => false
    case NotANumber => false
    case Array(es) => FiniteElements(es)
    case Object(ms) => FiniteMembers(ms)
    case _ => true
  }

  predicate FiniteElements(es: Elements) {
    es.Element? ==> Finite(es.value) && FiniteElements(es.next)
  }

  predicate FiniteMembers(ms: Members) {
    ms.Member? ==> Finite(ms.value) && FiniteMembers(ms.next)
  }

  /** No text is inserted unchanged, and no number is undefined: such values only a program can build. */
  predicate FromText(v: Json) {
    match v
    case NotANumber => false
    case Raw(_) => false
    case Array(es) => ElementsFromText(es)
    case Object(ms) => MembersFromText(ms)
    case _ => true
  }

  predicate ElementsFromText(es: Elements) {
    es.Element? ==> FromText(es.value) && ElementsFromText(es.next)
  }

  predicate MembersFromText(ms: Members) {
    ms.Member? ==> FromText(ms.value) && MembersFromText(ms.next)
  }

  /** What a conversion leads to: beyond the range of double precision it gives infinity. */
  function NumberOf(x: real): Json {
    if x >= Overflow() then Infinite(false)
    else if x <= -Overflow() then Infinite(true)
    else Number(x)
  }

  lemma Int32InRange(x: real)
    requires IsInt32(x)
    ensures NumberOf(x) == Number(x)
  {
    hide Overflow;
    OverflowRange();
  }

  /** Strings and keys are C strings, and finite numbers are integers of 32 bits. */
  predicate Printable(v: Json) {
    match v
    case Number(value) => IsInt32(value)
    case String(bytes) => 0 !in bytes
    case Raw(bytes) => 0 !in bytes
    case Array(elements) => PrintableElements(elements)
    case Object(members) => PrintableMembers(members)
    case _ => true
  }

  predicate PrintableElements(es: Elements) {
    es.Element? ==> Printable(es.value) && PrintableElements(es.next)
  }

  predicate PrintableMembers(ms: Members) {
    ms.Member? ==> 0 !in ms.key && Printable(ms.value) && PrintableMembers(ms.next)
  }

  /** Values that can be told from their text: in addition, all numbers are finite and no text is inserted unchanged. */
  predicate Restorable(v: Json): (b: bool)
    ensures b ==> Printable(v)
  {
    match v
    case Number(value) => IsInt32(value)
    case Infinite(_) => false
    case NotANumber => false
    case String(bytes) => 0 !in bytes
    case Raw(_) => false
    case Array(elements) => RestorableElements(elements)
    case Object(members) => RestorableMembers(members)
    case _ => true
  }

  predicate RestorableElements(es: Elements): (b: bool)
    ensures b ==> PrintableElements(es)
  {
    es.Element? ==> Restorable(es.value) && RestorableElements(es.next)
  }

  predicate RestorableMembers(ms: Members): (b: bool)
    ensures b ==> PrintableMembers(ms)
  {
    ms.Member? ==> 0 !in ms.key && Restorable(ms.value) && RestorableMembers(ms.next)
  }

  /** `values` in front of the list `rest`. */
  function Chain(values: seq<Json>, rest: Elements): Elements {
    if values == [] then rest else Element(values[0], Chain(values[1..], rest))
  }

  lemma {:induction false} ChainOne(values: seq<Json>, value: Json, rest: Elements)
    ensures Chain(values + [value], rest) == Chain(values, Element(value, rest))
  {
    if values == [] {
      assert [value][1..] == [];
    } else {
      assert (values + [value])[1..] == values[1..] + [value];
      ChainOne(values[1..], value, rest);
    }
  }

  datatype Pair = Pair(key: seq<byte>, value: Json)

  function ChainMembers(pairs: seq<Pair>, rest: Members): Members {
    if pairs == [] then rest else Member(pairs[0].key, pairs[0].value, ChainMembers(pairs[1..], rest))
  }

  lemma {:induction false} ChainMembersOne(pairs: seq<Pair>, p: Pair, rest: Members)
    ensures ChainMembers(pairs + [p], rest) == ChainMembers(pairs, Member(p.key, p.value, rest))
  {
    if pairs == [] {
      assert [p][1..] == [];
    } else {
      assert (pairs + [p])[1..] == pairs[1..] + [p];
      ChainMembersOne(pairs[1..], p, rest);
    }
  }

  const COMMA: byte := 44
  const COLON: byte := 58
  const SPACE: byte := 32
  const OPEN_BRACKET: byte := 91
  const CLOSE_BRACKET: byte := 93
  const OPEN_BRACE: byte := 123
  const CLOSE_BRACE: byte := 125

  const NULL_TEXT: seq<byte> := [110, 117, 108, 108]
  const FALSE_TEXT: seq<byte> := [102, 97, 108, 115, 101]
  const TRUE_TEXT: seq<byte> := [116, 114, 117, 101]

  /** `text` in a formatted rendering, nothing otherwise. */
  function When(format: bool, text: seq<byte>): seq<byte> {
    if format then text else []
  }

  function Tabs(n: nat): (s: seq<byte>)
    ensures |s| == n
    ensures forall i | 0 <= i < n :: s[i] == TAB
  {
    if n == 0 then [] else Tabs(n - 1) + [TAB]
  }

  /** The text of a value at a nesting depth. */
  function Render(v: Json, format: bool, depth: nat): (s: seq<byte>)
    requires Printable(v)
    ensures Restorable(v) ==> s != []
    decreases v
  {
    match v
    case Null => NULL_TEXT
    case False => FALSE_TEXT
    case True => TRUE_TEXT
    case Number(value) => Decimal(ValueInt(value))
    case Infinite(_) => NULL_TEXT
    case NotANumber => NULL_TEXT
    case String(bytes) => Quoted(bytes)
    case Raw(bytes) => bytes
    case Array(elements) => [OPEN_BRACKET] + RenderElements(elements, format, depth + 1) + [CLOSE_BRACKET]
    case Object(members) =>
      [OPEN_BRACE] + When(format, [NEWLINE]) + RenderMembers(members, format, depth + 1) +
      When(format, Tabs(depth)) + [CLOSE_BRACE]
  }

  function Separator(format: bool): seq<byte> {
    [COMMA] + When(format, [SPACE])
  }

  function RenderElements(es: Elements, format: bool, depth: nat): seq<byte>
    requires PrintableElements(es)
    decreases es
  {
    match es
    case NoElement => []
    case Element(value, next) =>
      Render(value, format, depth) +
      (if next.Element? then Separator(format) + RenderElements(next, format, depth) else [])
  }

  /** A member up to its value. */
  function MemberStart(key: seq<byte>, format: bool, depth: nat): seq<byte> {
    When(format, Tabs(depth)) + Quoted(key) + [COLON] + When(format, [TAB])
  }

  function MemberEnd(more: bool, format: bool): seq<byte> {
    (if more then [COMMA] else []) + When(format, [NEWLINE])
  }

  function RenderMembers(ms: Members, format: bool, depth: nat): seq<byte>
    requires PrintableMembers(ms)
    decreases ms
  {
    match ms
    case NoMember => []
    case Member(key, value, next) =>
      MemberStart(key, format, depth) + Render(value, format, depth) + MemberEnd(next.Member?, format) +
      RenderMembers(next, format, depth)
  }

  // ---- The text contains no zero byte ----

  lemma QuotedHasNoZero(s: seq<byte>)
    requires 0 !in s
    ensures 0 !in Quoted(s)
  {
    EscapeHasNoZero(s);
  }

  lemma DecimalHasNoZero(n: int)
    ensures 0 !in Decimal(n)
  {
  }

  lemma {:induction false} RenderHasNoZero(v: Json, format: bool, depth: nat)
    requires Printable(v)
    ensures 0 !in Render(v, format, depth)
    decreases v
  {
    match v
    case Null =>
    case False =>
    case True =>
    case Number(value) => DecimalHasNoZero(ValueInt(value));
    case Infinite(_) =>
    case NotANumber =>
    case String(bytes) => QuotedHasNoZero(bytes);
    case Raw(_) =>
    case Array(elements) => ElementsHaveNoZero(elements, format, depth + 1);
    case Object(members) => MembersHaveNoZero(members, format, depth + 1);
  }

  lemma {:induction false} ElementsHaveNoZero(es: Elements, format: bool, depth: nat)
    requires PrintableElements(es)
    ensures 0 !in RenderElements(es, format, depth)
    decreases es
  {
    if es.Element? {
      RenderHasNoZero(es.value, format, depth);
      ElementsHaveNoZero(es.next, format, depth);
    }
  }

  lemma {:induction false} MembersHaveNoZero(ms: Members, format: bool, depth: nat)
    requires PrintableMembers(ms)
    ensures 0 !in RenderMembers(ms, format, depth)
    decreases ms
  {
    if ms.Member? {
      QuotedHasNoZero(ms.key);
      RenderHasNoZero(ms.value, format, depth);
      MembersHaveNoZero(ms.next, format, depth);
      hide Quoted;
    }
  }
}
