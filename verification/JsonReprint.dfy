/** What has been parsed can be printed, and is read back the same. */
module JsonReprint {
  import opened Bytes
  import opened JsonNumber
  import opened JsonString
  import opened JsonValue
  import opened JsonParse
  import opened JsonRoundTrip

  /** A parsed value has C strings only, holds nothing a text cannot express, and respects the nesting limit. */
  predicate Tame(v: Json, depth: nat) {
    CStrings(v) && FromText(v) && Depth(v) + depth <= NESTING_LIMIT
  }

  predicate TameElements(es: Elements, depth: nat) {
    CStringElements(es) && ElementsFromText(es) && ElementsDepth(es) + depth <= NESTING_LIMIT
  }

  predicate TameMembers(ms: Members, depth: nat) {
    CStringMembers(ms) && MembersFromText(ms) && MembersDepth(ms) + depth <= NESTING_LIMIT
  }

  lemma TameElement(v: Json, es: Elements, depth: nat)
    requires Tame(v, depth) && depth <= NESTING_LIMIT
    ensures TameElements(NoElement, depth)
    ensures TameElements(es, depth) ==> TameElements(Element(v, es), depth)
  {
  }

  lemma TameMember(key: seq<byte>, v: Json, ms: Members, depth: nat)
    requires 0 !in key && Tame(v, depth) && depth <= NESTING_LIMIT
    ensures TameMembers(NoMember, depth)
    ensures TameMembers(ms, depth) ==> TameMembers(Member(key, v, ms), depth)
  {
  }

  /** A list that was read is its first element alone, or that element in front of the list behind the comma. */
  lemma ParseElementsBuilt(s: seq<byte>, depth: nat)
    requires s != []
    ensures var head, r := NextElement(s, depth), ParseElements(s, depth);
      r.NoElements? || (head.ElementHead? && r.elements.Element? && r.elements.value == head.value &&
        if head.end < |s| && s[head.end] == COMMA then
          var more := ParseElements(s[head.end..], depth);
          more.SomeElements? && r.elements.next == more.elements
        else r.elements.next == NoElement)
  {
    hide NextElement;
  }

  lemma ParseMembersBuilt(s: seq<byte>, depth: nat)
    requires s != []
    ensures var head, r := NextMember(s, depth), ParseMembers(s, depth);
      r.NoMembers? || (head.MemberHead? && r.members.Member? && r.members.key == head.key &&
        r.members.value == head.value &&
        if head.end < |s| && s[head.end] == COMMA then
          var more := ParseMembers(s[head.end..], depth);
          more.SomeMembers? && r.members.next == more.members
        else r.members.next == NoMember)
  {
    hide NextMember;
  }

  lemma {:induction false} ParsedValueIsTame(s: seq<byte>, depth: nat)
    requires depth <= NESTING_LIMIT
    ensures var r := ParseValue(s, depth); r.Success? ==> Tame(r.value, depth)
    decreases |s|, 3
  {
    hide ParseString, ParseNumber, ParseArray, ParseObject, CString;
    if At(s, 0, OPEN_BRACKET) {
      ParsedArrayIsTame(s, depth);
    } else if At(s, 0, OPEN_BRACE) {
      ParsedObjectIsTame(s, depth);
    }
  }

  lemma {:induction false} ParsedArrayIsTame(s: seq<byte>, depth: nat)
    requires At(s, 0, OPEN_BRACKET) && depth <= NESTING_LIMIT
    ensures var r := ParseArray(s, depth); r.Success? ==> Tame(r.value, depth)
    decreases |s|, 2
  {
    hide ParseElements, Skip;
    if depth < NESTING_LIMIT && |s| > 1 {
      ParsedElementsAreTame(s[Skip(s[1..])..], depth + 1);
    }
  }

  lemma {:induction false} ParsedElementsAreTame(s: seq<byte>, depth: nat)
    requires s != [] && depth <= NESTING_LIMIT
    ensures var r := ParseElements(s, depth); r.SomeElements? ==> TameElements(r.elements, depth)
    decreases |s|, 1
  {
    hide NextElement, ParseElements, Tame, TameElements;
    ParseElementsBuilt(s, depth);
    NextElementIsTame(s, depth);
    var head, r := NextElement(s, depth), ParseElements(s, depth);
    if r.SomeElements? {
      TameElement(head.value, r.elements.next, depth);
      if head.end < |s| && s[head.end] == COMMA {
        ParsedElementsAreTame(s[head.end..], depth);
      }
    }
  }

  lemma {:induction false} NextElementIsTame(s: seq<byte>, depth: nat)
    requires s != [] && depth <= NESTING_LIMIT
    ensures var r := NextElement(s, depth); r.ElementHead? ==> Tame(r.value, depth)
    decreases |s|, 0
  {
    hide ParseValue, Skip;
    ParsedValueIsTame(s[1 + Skip(s[1..])..], depth);
  }

  lemma {:induction false} ParsedObjectIsTame(s: seq<byte>, depth: nat)
    requires At(s, 0, OPEN_BRACE) && depth <= NESTING_LIMIT
    ensures var r := ParseObject(s, depth); r.Success? ==> Tame(r.value, depth)
    decreases |s|, 2
  {
    hide ParseMembers, Skip;
    if depth < NESTING_LIMIT && |s| > 1 {
      ParsedMembersAreTame(s[Skip(s[1..])..], depth + 1);
    }
  }

  lemma {:induction false} ParsedMembersAreTame(s: seq<byte>, depth: nat)
    requires s != [] && depth <= NESTING_LIMIT
    ensures var r := ParseMembers(s, depth); r.SomeMembers? ==> TameMembers(r.members, depth)
    decreases |s|, 1
  {
    hide NextMember, ParseMembers, Tame, TameMembers;
    ParseMembersBuilt(s, depth);
    NextMemberIsTame(s, depth);
    var head, r := NextMember(s, depth), ParseMembers(s, depth);
    if r.SomeMembers? {
      TameMember(head.key, head.value, r.members.next, depth);
      if head.end < |s| && s[head.end] == COMMA {
        ParsedMembersAreTame(s[head.end..], depth);
      }
    }
  }

  lemma {:induction false} NextMemberIsTame(s: seq<byte>, depth: nat)
    requires s != [] && depth <= NESTING_LIMIT
    ensures var r := NextMember(s, depth); r.MemberHead? ==> 0 !in r.key && Tame(r.value, depth)
    decreases |s|, 0
  {
    hide ParseValue, Skip, NextName, Tame;
    NextNameIsCString(s);
    var name := NextName(s);
    if name.NameHead? {
      ParsedValueIsTame(s[name.colon + 1 + Skip(s[name.colon + 1..])..], depth);
    }
  }

  lemma NextNameIsCString(s: seq<byte>)
    requires s != []
    ensures var r := NextName(s); r.NameHead? ==> 0 !in r.key
  {
    hide ParseString, Skip, CString;
  }

  // ---- What is not finite is lost ----

  /** Every number that is not finite replaced by a null. */
  function Nulled(v: Json): Json {
    match v
    case Infinite(_) => Null
    case NotANumber => Null
    case Array(es) => Array(NulledElements(es))
    case Object(ms) => Object(NulledMembers(ms))
    case _ => v
  }

  function NulledElements(es: Elements): Elements {
    if es == NoElement then NoElement else Element(Nulled(es.value), NulledElements(es.next))
  }

  function NulledMembers(ms: Members): Members {
    if ms == NoMember then NoMember else Member(ms.key, Nulled(ms.value), NulledMembers(ms.next))
  }

  predicate WithoutRaw(v: Json) {
    match v
    case Raw(_) => false
    case Array(es) => ElementsWithoutRaw(es)
    case Object(ms) => MembersWithoutRaw(ms)
    case _ => true
  }

  predicate ElementsWithoutRaw(es: Elements) {
    es.Element? ==> WithoutRaw(es.value) && ElementsWithoutRaw(es.next)
  }

  predicate MembersWithoutRaw(ms: Members) {
    ms.Member? ==> WithoutRaw(ms.value) && MembersWithoutRaw(ms.next)
  }

  lemma {:induction false} NulledUnlessFinite(v: Json)
    ensures Nulled(v) == v <==> Finite(v)
    decreases v
  {
    match v
    case Array(es) => ElementsNulledUnlessFinite(es);
    case Object(ms) => MembersNulledUnlessFinite(ms);
    case _ =>
  }

  lemma {:induction false} ElementsNulledUnlessFinite(es: Elements)
    ensures NulledElements(es) == es <==> FiniteElements(es)
    decreases es
  {
    if es.Element? {
      NulledUnlessFinite(es.value);
      ElementsNulledUnlessFinite(es.next);
    }
  }

  lemma {:induction false} MembersNulledUnlessFinite(ms: Members)
    ensures NulledMembers(ms) == ms <==> FiniteMembers(ms)
    decreases ms
  {
    if ms.Member? {
      NulledUnlessFinite(ms.value);
      MembersNulledUnlessFinite(ms.next);
    }
  }

  /** The text does not show what was lost. */
  lemma {:induction false} NulledText(v: Json, format: bool, depth: nat)
    requires Printable(v) && WithoutRaw(v)
    ensures Restorable(Nulled(v)) && Depth(Nulled(v)) == Depth(v)
    ensures Render(Nulled(v), format, depth) == Render(v, format, depth)
    decreases v
  {
    match v
    case Array(es) => NulledElementsText(es, format, depth + 1);
    case Object(ms) => NulledMembersText(ms, format, depth + 1);
    case _ =>
  }

  lemma {:induction false} NulledElementsText(es: Elements, format: bool, depth: nat)
    requires PrintableElements(es) && ElementsWithoutRaw(es)
    ensures RestorableElements(NulledElements(es)) && ElementsDepth(NulledElements(es)) == ElementsDepth(es)
    ensures RenderElements(NulledElements(es), format, depth) == RenderElements(es, format, depth)
    decreases es
  {
    if es.Element? {
      NulledText(es.value, format, depth);
      NulledElementsText(es.next, format, depth);
      hide Render, Nulled, Separator;
    }
  }

  lemma {:induction false} NulledMembersText(ms: Members, format: bool, depth: nat)
    requires PrintableMembers(ms) && MembersWithoutRaw(ms)
    ensures RestorableMembers(NulledMembers(ms)) && MembersDepth(NulledMembers(ms)) == MembersDepth(ms)
    ensures RenderMembers(NulledMembers(ms), format, depth) == RenderMembers(ms, format, depth)
    decreases ms
  {
    if ms.Member? {
      NulledText(ms.value, format, depth);
      NulledMembersText(ms.next, format, depth);
      hide Render, Nulled, MemberStart, MemberEnd;
    }
  }

  /** Printing and parsing any value without raw text: it comes back with a null for every number that is not finite. */
  lemma PrintThenParseAny(v: Json, format: bool, requireNullTerminated: bool)
    requires Printable(v) && WithoutRaw(v)
    ensures var text := Render(v, format, 0);
      var r := ParseText(text + [0], requireNullTerminated);
      if Depth(v) <= NESTING_LIMIT then r == Document(Nulled(v), |text|) else r.Error?
    ensures Depth(v) <= NESTING_LIMIT ==>
      var text := Render(v, format, 0);
      (ParseText(text + [0], requireNullTerminated) == Document(v, |text|) <==> Finite(v))
  {
    NulledText(v, format, 0);
    PrintThenParse(Nulled(v), format, requireNullTerminated);
    NulledUnlessFinite(v);
    hide ParseText, Render, Depth;
  }

  // ---- Parsing, printing and parsing again ----

  lemma {:induction false} FromTextWithoutRaw(v: Json)
    requires FromText(v)
    ensures WithoutRaw(v)
    decreases v
  {
    match v
    case Array(es) => ElementsFromTextWithoutRaw(es);
    case Object(ms) => MembersFromTextWithoutRaw(ms);
    case _ =>
  }

  lemma {:induction false} ElementsFromTextWithoutRaw(es: Elements)
    requires ElementsFromText(es)
    ensures ElementsWithoutRaw(es)
    decreases es
  {
    if es.Element? {
      FromTextWithoutRaw(es.value);
      ElementsFromTextWithoutRaw(es.next);
    }
  }

  lemma {:induction false} MembersFromTextWithoutRaw(ms: Members)
    requires MembersFromText(ms)
    ensures MembersWithoutRaw(ms)
    decreases ms
  {
    if ms.Member? {
      FromTextWithoutRaw(ms.value);
      MembersFromTextWithoutRaw(ms.next);
    }
  }

  /** The finite numbers are integers of 32 bits. */
  predicate WholeNumbers(v: Json) {
    match v
    case Number(value) => IsInt32(value)
    case Array(es) => WholeElements(es)
    case Object(ms) => WholeMembers(ms)
    case _ => true
  }

  predicate WholeElements(es: Elements) {
    es.Element? ==> WholeNumbers(es.value) && WholeElements(es.next)
  }

  predicate WholeMembers(ms: Members) {
    ms.Member? ==> WholeNumbers(ms.value) && WholeMembers(ms.next)
  }

  lemma {:induction false} PrintableParts(v: Json)
    ensures Printable(v) <==> CStrings(v) && WholeNumbers(v)
    decreases v
  {
    match v
    case Array(es) => PrintableElementsParts(es);
    case Object(ms) => PrintableMembersParts(ms);
    case _ =>
  }

  lemma {:induction false} PrintableElementsParts(es: Elements)
    ensures PrintableElements(es) <==> CStringElements(es) && WholeElements(es)
    decreases es
  {
    if es.Element? {
      PrintableParts(es.value);
      PrintableElementsParts(es.next);
    }
  }

  lemma {:induction false} PrintableMembersParts(ms: Members)
    ensures PrintableMembers(ms) <==> CStringMembers(ms) && WholeMembers(ms)
    decreases ms
  {
    if ms.Member? {
      PrintableParts(ms.value);
      PrintableMembersParts(ms.next);
    }
  }

  /**
   Whatever text was parsed: if its finite numbers are integers of 32 bits, the value can be printed, formatted or not,
   and parsing the print gives the same value again, with nulls for infinities.
   */
  lemma ParsedPrintsBack(text: seq<byte>, requireNullTerminated: bool, format: bool)
    requires ParseText(text, requireNullTerminated).Document?
    requires WholeNumbers(ParseText(text, requireNullTerminated).value)
    ensures var v := ParseText(text, requireNullTerminated).value;
      Printable(v) && ParseText(Render(v, format, 0) + [0], true) == Document(Nulled(v), |Render(v, format, 0)|) &&
      (Nulled(v) == v <==> Finite(v))
  {
    var v := ParseText(text, requireNullTerminated).value;
    var bom := BomLength(text);
    hide ParseValue, Skip, BomLength, Render;
    ParsedValueIsTame(text[bom + Skip(text[bom..])..], 0);
    PrintableParts(v);
    FromTextWithoutRaw(v);
    PrintThenParseAny(v, format, true);
    NulledUnlessFinite(v);
  }
}
