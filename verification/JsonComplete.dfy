/**
 The parser reads every written text as what it means, down to the nesting limit, and refuses what is nested deeper.
 */
module JsonComplete {
  import opened Bytes
  import opened JsonNumber
  import opened JsonNumeral
  import opened JsonParse
  import opened JsonSpelling
  import opened JsonString
  import opened JsonSyntax
  import opened JsonValue

  /** What may follow a value: nothing, or a character that cannot continue a number. */
  predicate Delimited(rest: seq<byte>) {
    rest == [] || !IsNumberChar(rest[0])
  }

  // ---- White space ----

  lemma {:induction false} WhiteRunStops(white: seq<byte>, rest: seq<byte>)
    requires AllWhite(white) && (rest == [] || !IsWhite(rest[0]))
    ensures WhiteRun(white + rest) == |white|
  {
    if white != [] {
      assert (white + rest)[1..] == white[1..] + rest;
      WhiteRunStops(white[1..], rest);
    } else {
      assert white + rest == rest;
    }
  }

  lemma SkipStops(white: seq<byte>, rest: seq<byte>)
    requires AllWhite(white) && rest != [] && !IsWhite(rest[0])
    ensures Skip(white + rest) == |white| && (white + rest)[|white|..] == rest
  {
    WhiteRunStops(white, rest);
  }

  lemma SkipNothing(s: seq<byte>)
    requires s != [] && !IsWhite(s[0])
    ensures Skip(s) == 0 && s[0..] == s
  {
  }

  lemma NoWhite()
    ensures AllWhite([])
  {
  }

  // ---- Values without children ----

  /** The parser's answer for a text that starts with the written value `w`. */
  ghost predicate ReadsAs(w: Written, text: seq<byte>, depth: nat)
    requires GoodWritten(w)
  {
    var r := ParseValue(text, depth);
    if Depth(Meaning(w)) + depth <= NESTING_LIMIT then r == Success(Meaning(w), |WrittenText(w)|) else r.Failure?
  }

  lemma OpensString(s: seq<byte>, depth: nat)
    requires s != [] && s[0] == QUOTE && ParseString(s).Parsed?
    ensures ParseValue(s, depth) == Success(String(CString(ParseString(s).bytes)), ParseString(s).used)
  {
    hide ParseString, CString;
  }

  lemma StringTextIsRead(cs: seq<Character>, rest: seq<byte>)
    requires GoodText(cs)
    ensures ParseString(StringText(cs) + rest) == Parsed(BytesOf(cs), |StringText(cs)|)
    ensures (StringText(cs) + rest)[0] == QUOTE
  {
    hide ParseString;
    SpelledStringIsRead(cs, rest);
  }

  lemma TextBack(cs: seq<Character>, rest: seq<byte>, depth: nat)
    requires GoodText(cs)
    ensures ParseValue(StringText(cs) + rest, depth) == Success(String(CString(BytesOf(cs))), |StringText(cs)|)
  {
    hide *;
    StringTextIsRead(cs, rest);
    OpensString(StringText(cs) + rest, depth);
  }

  lemma OpensNumber(s: seq<byte>, depth: nat)
    requires s != [] && (s[0] == MINUS || IsDigit(s[0])) && ParseNumber(s).used > 0
    ensures ParseValue(s, depth) == Success(NumberOf(ParseNumber(s).value), ParseNumber(s).used)
  {
    hide ParseNumber;
  }

  lemma FigureStarts(n: Numeral)
    requires GoodWritten(Figure(n))
    ensures var t := NumeralText(n); t != [] && (t[0] == MINUS || IsDigit(t[0]))
  {
    if n.sign == [] {
      assert NumeralText(n)[0] == n.whole[0];
    }
  }

  lemma FigureBack(n: Numeral, rest: seq<byte>, depth: nat)
    requires GoodWritten(Figure(n)) && Delimited(rest)
    ensures ParseValue(NumeralText(n) + rest, depth) == Success(NumberOf(NumeralValue(n)), |NumeralText(n)|)
  {
    FigureStarts(n);
    NumeralIsRead(n, rest);
    hide *;
    OpensNumber(NumeralText(n) + rest, depth);
  }

  lemma WordBack(word: Json, rest: seq<byte>, depth: nat)
    requires word == Null || word == False || word == True
    ensures ParseValue(WordText(word) + rest, depth) == Success(word, |WordText(word)|)
  {
    assert (WordText(word) + rest)[0] == WordText(word)[0];
    assert WordText(word) <= WordText(word) + rest;
  }

  /** A written value starts with a character that is neither white nor closes a list, nor starts a byte order mark. */
  lemma WrittenStarts(w: Written)
    requires GoodWritten(w)
    ensures WrittenText(w) != []
    ensures var b := WrittenText(w)[0]; !IsWhite(b) && b != CLOSE_BRACKET && b != CLOSE_BRACE && b != 0xEF
  {
    hide NumeralText, TextsOf, ItemsText, FieldsText;
    if w.Figure? {
      FigureStarts(w.numeral);
    }
  }

  // ---- What the parser does with lists, given what it does with the parts ----

  lemma NextElementRule(s: seq<byte>, white: nat, first: nat, pad: nat, depth: nat)
    requires 1 + white + first + pad < |s| && Skip(s[1..]) == white && Skip(s[1 + white + first..]) == pad
    requires var v := ParseValue(s[1 + white..], depth); v.Success? ==> v.used == first
    ensures var head := NextElement(s, depth);
      match ParseValue(s[1 + white..], depth)
      case Failure(at) => head.BadElement?
      case Success(value, used) => head == ElementHead(value, 1 + white + first + pad)
  {
    hide ParseValue, Skip;
  }

  lemma ElementsRule(s: seq<byte>, depth: nat)
    requires s != []
    ensures var head, r := NextElement(s, depth), ParseElements(s, depth);
      (head.BadElement? ==> r.NoElements?) &&
      (head.ElementHead? && head.end < |s| && s[head.end] == CLOSE_BRACKET ==>
         r == SomeElements(Element(head.value, NoElement), head.end)) &&
      (head.ElementHead? && head.end < |s| && s[head.end] == COMMA ==>
         var more := ParseElements(s[head.end..], depth);
         if more.NoElements? then r.NoElements?
         else r == SomeElements(Element(head.value, more.elements), head.end + more.end))
  {
    hide NextElement;
  }

  lemma MembersRule(s: seq<byte>, depth: nat)
    requires s != []
    ensures var head, r := NextMember(s, depth), ParseMembers(s, depth);
      (head.BadMember? ==> r.NoMembers?) &&
      (head.MemberHead? && head.end < |s| && s[head.end] == CLOSE_BRACE ==>
         r == SomeMembers(Member(head.key, head.value, NoMember), head.end)) &&
      (head.MemberHead? && head.end < |s| && s[head.end] == COMMA ==>
         var more := ParseMembers(s[head.end..], depth);
         if more.NoMembers? then r.NoMembers?
         else r == SomeMembers(Member(head.key, head.value, more.members), head.end + more.end))
  {
    hide NextMember;
  }

  lemma OpensArray(s: seq<byte>, depth: nat)
    requires s != [] && s[0] == OPEN_BRACKET
    ensures ParseValue(s, depth) == ParseArray(s, depth)
  {
    hide ParseArray;
  }

  lemma OpensObject(s: seq<byte>, depth: nat)
    requires s != [] && s[0] == OPEN_BRACE
    ensures ParseValue(s, depth) == ParseObject(s, depth)
  {
    hide ParseObject;
  }

  lemma ArrayRule(s: seq<byte>, white: nat, depth: nat)
    requires |s| > 1 + white && s[0] == OPEN_BRACKET && Skip(s[1..]) == white && s[1 + white] != CLOSE_BRACKET
    requires depth < NESTING_LIMIT
    ensures match ParseElements(s[white..], depth + 1)
      case NoElements(at) => ParseArray(s, depth).Failure?
      case SomeElements(elements, end) => ParseArray(s, depth) == Success(Array(elements), white + end + 1)
  {
    hide ParseElements, Skip;
  }

  lemma EmptyArrayRule(s: seq<byte>, white: nat, depth: nat)
    requires |s| > 1 + white && s[0] == OPEN_BRACKET && Skip(s[1..]) == white && s[1 + white] == CLOSE_BRACKET
    requires depth < NESTING_LIMIT
    ensures ParseArray(s, depth) == Success(Array(NoElement), white + 2)
  {
    hide ParseElements, Skip;
  }

  lemma ObjectRule(s: seq<byte>, white: nat, depth: nat)
    requires |s| > 1 + white && s[0] == OPEN_BRACE && Skip(s[1..]) == white && s[1 + white] != CLOSE_BRACE
    requires depth < NESTING_LIMIT
    ensures match ParseMembers(s[white..], depth + 1)
      case NoMembers(at) => ParseObject(s, depth).Failure?
      case SomeMembers(members, end) => ParseObject(s, depth) == Success(Object(members), white + end + 1)
  {
    hide ParseMembers, Skip;
  }

  lemma EmptyObjectRule(s: seq<byte>, white: nat, depth: nat)
    requires |s| > 1 + white && s[0] == OPEN_BRACE && Skip(s[1..]) == white && s[1 + white] == CLOSE_BRACE
    requires depth < NESTING_LIMIT
    ensures ParseObject(s, depth) == Success(Object(NoMember), white + 2)
  {
    hide ParseMembers, Skip;
  }

  lemma TooDeep(s: seq<byte>)
    requires s != [] && (s[0] == OPEN_BRACKET || s[0] == OPEN_BRACE)
    ensures ParseValue(s, NESTING_LIMIT).Failure?
  {
    hide ParseElements, ParseMembers, ParseNumber, ParseString, NumberOf, Skip;
  }

  // ---- Lists ----

  lemma ElementText(front: byte, white: seq<byte>, first: seq<byte>, pad: seq<byte>, behind: seq<byte>)
    requires AllWhite(white) && AllWhite(pad) && first != [] && !IsWhite(first[0])
    requires behind != [] && !IsWhite(behind[0])
    ensures var s := [front] + white + first + pad + behind;
      Skip(s[1..]) == |white| && s[1 + |white|..] == first + (pad + behind) &&
      Skip(s[1 + |white| + |first|..]) == |pad| && s[1 + |white| + |first| + |pad|..] == behind &&
      s[1 + |white| + |first| + |pad|] == behind[0]
  {
    var s := [front] + white + first + pad + behind;
    assert s[1..] == white + (first + (pad + behind));
    assert s[1 + |white| + |first|..] == pad + behind;
    SkipStops(white, first + (pad + behind));
    SkipStops(pad, behind);
  }

  lemma PadDelimits(pad: seq<byte>, behind: seq<byte>)
    requires AllWhite(pad) && behind != []
    requires behind[0] == COMMA || behind[0] == CLOSE_BRACE || behind[0] == CLOSE_BRACKET
    ensures Delimited(pad + behind) && !IsWhite(behind[0])
  {
    if pad != [] {
      assert (pad + behind)[0] == pad[0];
    }
  }

  lemma ItemsParts(items: Items)
    requires items.Item? && GoodItems(items)
    ensures GoodWritten(items.value) && GoodItems(items.next) && AllWhite(items.before) && AllWhite(items.after)
    ensures items.next.Item? ==> AllWhite(items.next.before)
    ensures ItemsMeaning(items) == Element(Meaning(items.value), ItemsMeaning(items.next))
    ensures ItemsMeaning(NoItem) == NoElement
    ensures var d := ElementsDepth(ItemsMeaning(items));
      d == Max(Depth(Meaning(items.value)), ElementsDepth(ItemsMeaning(items.next)))
    ensures ElementsDepth(NoElement) == 0
    ensures ItemsText(items) == WrittenText(items.value) + items.after +
      if items.next == NoItem then [] else [44] + items.next.before + ItemsText(items.next)
  {
  }

  lemma RegroupItems(w: seq<byte>, a: seq<byte>, pad: seq<byte>, tail: seq<byte>, c: seq<byte>, d: seq<byte>)
    ensures w + (a + pad + tail) + c + d == w + a + pad + (tail + c + d)
  {
  }

  lemma {:induction false} ItemsBack(items: Items, front: byte, white: seq<byte>, rest: seq<byte>, depth: nat)
    requires items.Item? && GoodItems(items) && AllWhite(white) && depth <= NESTING_LIMIT
    ensures var inner := ItemsText(items);
      var r := ParseElements([front] + white + inner + [93] + rest, depth);
      if ElementsDepth(ItemsMeaning(items)) + depth <= NESTING_LIMIT then
        r == SomeElements(ItemsMeaning(items), 1 + |white| + |inner|)
      else r.NoElements?
    decreases items, 0
  {
    hide *;
    ItemsParts(items);
    var first, pad := WrittenText(items.value), items.after;
    var tail := if items.next == NoItem then [] else [44] + items.next.before + ItemsText(items.next);
    var behind := tail + [93] + rest;
    var text := [front] + white + first + pad + behind;
    RegroupItems([front] + white, first, pad, tail, [93], rest);
    WrittenStarts(items.value);
    Marks();
    PadDelimits(pad, behind);
    WrittenBack(items.value, pad + behind, depth);
    ReadsMeans(items.value, first + (pad + behind), depth);
    ElementText(front, white, first, pad, behind);
    NextElementRule(text, |white|, |first|, |pad|, depth);
    ElementsRule(text, depth);
    MaxMeans(Depth(Meaning(items.value)), ElementsDepth(ItemsMeaning(items.next)));
    if items.next.Item? {
      ItemsBack(items.next, COMMA, items.next.before, rest, depth);
    }
  }

  lemma Marks()
    ensures QUOTE == 34 && COMMA == 44 && COLON == 58
    ensures OPEN_BRACKET == 91 && CLOSE_BRACKET == 93 && OPEN_BRACE == 123 && CLOSE_BRACE == 125
    ensures !IsWhite(COMMA) && !IsWhite(COLON) && !IsWhite(CLOSE_BRACKET) && !IsWhite(CLOSE_BRACE) && !IsWhite(QUOTE)
  {
  }

  lemma MaxMeans(a: nat, b: nat)
    ensures Max(a, b) == if a > b then a else b
  {
  }

  lemma ReadsMeans(w: Written, text: seq<byte>, depth: nat)
    requires GoodWritten(w)
    ensures var r := ParseValue(text, depth);
      ReadsAs(w, text, depth) <==>
        if Depth(Meaning(w)) + depth <= NESTING_LIMIT then r == Success(Meaning(w), |WrittenText(w)|) else r.Failure?
  {
  }

  /** A list or record, cut where the parser stops first. */
  lemma BracketText(open: byte, white: seq<byte>, body: seq<byte>)
    requires AllWhite(white) && body != [] && !IsWhite(body[0])
    ensures var s := [open] + white + body;
      Skip(s[1..]) == |white| && s[1 + |white|] == body[0] && s[|white|..] == [s[|white|]] + body
  {
    var s := [open] + white + body;
    assert s[1..] == white + body;
    SkipStops(white, body);
  }

  lemma ItemsStart(items: Items)
    requires items.Item? && GoodItems(items)
    ensures var inner := ItemsText(items); inner != [] && !IsWhite(inner[0]) && inner[0] != CLOSE_BRACKET
  {
    hide WrittenText;
    WrittenStarts(items.value);
  }

  lemma FilledListBack(items: Items, rest: seq<byte>, depth: nat)
    requires items.Item? && GoodItems(items) && depth < NESTING_LIMIT
    ensures var inner := items.before + ItemsText(items);
      var r := ParseValue([91] + inner + [93] + rest, depth);
      if 1 + ElementsDepth(ItemsMeaning(items)) + depth <= NESTING_LIMIT then
        r == Success(Array(ItemsMeaning(items)), |inner| + 2)
      else r.Failure?
    decreases items, 1
  {
    hide *;
    ItemsParts(items);
    ItemsStart(items);
    Marks();
    NoWhite();
    var white, inner := items.before, ItemsText(items);
    var body := inner + [93] + rest;
    var text := [91] + white + body;
    BracketText(91, white, body);
    OpensArray(text, depth);
    ArrayRule(text, |white|, depth);
    ItemsBack(items, text[|white|], [], rest, depth + 1);
    assert [text[|white|]] + [] + inner + [93] + rest == [text[|white|]] + body;
    assert [91] + (white + inner) + [93] + rest == text;
  }

  lemma EmptyListBack(gap: seq<byte>, rest: seq<byte>, depth: nat)
    requires AllWhite(gap) && depth < NESTING_LIMIT
    ensures ParseValue([91] + gap + [93] + rest, depth) == Success(Array(NoElement), |gap| + 2)
  {
    hide *;
    Marks();
    var body := [93] + rest;
    var text := [91] + gap + body;
    BracketText(91, gap, body);
    OpensArray(text, depth);
    EmptyArrayRule(text, |gap|, depth);
    assert [91] + gap + [93] + rest == text;
  }

  lemma ListParts(gap: seq<byte>, items: Items)
    requires GoodWritten(List(gap, items))
    ensures AllWhite(gap) && GoodItems(items) && Meaning(List(gap, items)) == Array(ItemsMeaning(items))
    ensures Depth(Array(ItemsMeaning(items))) == 1 + ElementsDepth(ItemsMeaning(items))
    ensures items == NoItem ==> ItemsMeaning(items) == NoElement && ElementsDepth(NoElement) == 0
    ensures WrittenText(List(gap, items)) ==
      [91] + (if items == NoItem then gap else items.before + ItemsText(items)) + [93]
  {
    hide ItemsText, AllWhite;
  }

  lemma ListBack(gap: seq<byte>, items: Items, rest: seq<byte>, depth: nat)
    requires GoodWritten(List(gap, items)) && depth <= NESTING_LIMIT
    ensures ReadsAs(List(gap, items), WrittenText(List(gap, items)) + rest, depth)
    decreases items, 2
  {
    hide *;
    var w := List(gap, items);
    ListParts(gap, items);
    Marks();
    var text := WrittenText(w) + rest;
    ReadsMeans(w, text, depth);
    if depth == NESTING_LIMIT {
      TooDeep(text);
    } else if items == NoItem {
      EmptyListBack(gap, rest, depth);
    } else {
      FilledListBack(items, rest, depth);
    }
  }

  // ---- Records ----

  /** The text of a member, cut at every place where the parser stops to look, up to the colon. */
  lemma NameText(front: byte, white: seq<byte>, name: seq<byte>, middle: seq<byte>, behind: seq<byte>)
    ensures var s := [front] + white + name + middle + behind;
      var colon := 1 + |white| + |name| + |middle|;
      s[1..] == white + (name + (middle + behind)) && s[1 + |white|..] == name + (middle + behind) &&
      s[1 + |white| + |name|..] == middle + behind && s[colon..] == behind
  {
  }

  /** And from there on. */
  lemma MemberText(s: seq<byte>, colon: nat, gap: seq<byte>, first: seq<byte>, pad: seq<byte>, behind: seq<byte>)
    requires colon <= |s| && s[colon..] == [58] + (gap + first + pad + behind)
    ensures var start := colon + 1 + |gap|;
      colon < |s| && s[colon] == 58 && s[colon + 1..] == gap + (first + (pad + behind)) &&
      s[start..] == first + (pad + behind) &&
      s[start + |first|..] == pad + behind && s[start + |first| + |pad|..] == behind
  {
    assert s[colon] == s[colon..][0];
    assert s[colon + 1..] == s[colon..][1..] == gap + (first + (pad + behind));
    var rest := s[colon + 1..];
    assert rest[|gap|..] == first + (pad + behind);
    assert rest[|gap| + |first|..] == pad + behind;
    assert rest[|gap| + |first| + |pad|..] == behind;
  }

  lemma MemberPieces(a: seq<byte>, b: seq<byte>, c: seq<byte>, d: seq<byte>, e: seq<byte>, f: seq<byte>)
    ensures a + b + c + d + e + f == a + (b + (c + d + e + f))
  {
  }

  lemma NextMemberRule(s: seq<byte>, white: nat, key: seq<byte>, name: nat, middle: nat, gap: nat, first: nat, pad: nat,
      depth: nat)
    requires |s| > 1 && Skip(s[1..]) == white && 1 + white + name + middle + 1 + gap + first + pad < |s|
    requires ParseString(s[1 + white..]) == Parsed(key, name) && Skip(s[1 + white + name..]) == middle
    requires var colon := 1 + white + name + middle;
      s[colon] == COLON && Skip(s[colon + 1..]) == gap && Skip(s[colon + 1 + gap + first..]) == pad &&
      var v := ParseValue(s[colon + 1 + gap..], depth); v.Success? ==> v.used == first
    ensures var head := NextMember(s, depth);
      var start := 1 + white + name + middle + 1 + gap;
      match ParseValue(s[start..], depth)
      case Failure(at) => head.BadMember?
      case Success(value, used) => head == MemberHead(CString(key), value, start + first + pad)
  {
    hide ParseValue, Skip, ParseString, CString;
  }

  /** Where the parser stops in the text of a member, and what it skips there. */
  lemma MemberPlaces(front: byte, white: seq<byte>, name: seq<Character>, middle: seq<byte>, gap: seq<byte>,
      first: seq<byte>, pad: seq<byte>, behind: seq<byte>)
    requires GoodText(name) && AllWhite(white) && AllWhite(middle) && AllWhite(gap) && AllWhite(pad)
    requires first != [] && !IsWhite(first[0]) && behind != [] && !IsWhite(behind[0])
    ensures var key := StringText(name);
      var s := [front] + white + key + middle + [58] + gap + first + pad + behind;
      var colon := 1 + |white| + |key| + |middle|;
      var start := colon + 1 + |gap|;
      Skip(s[1..]) == |white| && ParseString(s[1 + |white|..]) == Parsed(BytesOf(name), |key|) &&
      Skip(s[1 + |white| + |key|..]) == |middle| && s[colon] == 58 && Skip(s[colon + 1..]) == |gap| &&
      s[start..] == first + (pad + behind) && Skip(s[start + |first|..]) == |pad| &&
      start + |first| + |pad| < |s| && s[start + |first| + |pad|] == behind[0] &&
      s[start + |first| + |pad|..] == behind
  {
    hide *;
    Marks();
    var key := StringText(name);
    var body := [58] + (gap + first + pad + behind);
    var s := [front] + white + key + middle + body;
    assert [front] + white + key + middle + [58] + gap + first + pad + behind == s by {
      MemberPieces([front] + white + key + middle, [58], gap, first, pad, behind);
    }
    StringTextIsRead(name, middle + body);
    NameText(front, white, key, middle, body);
    MemberText(s, 1 + |white| + |key| + |middle|, gap, first, pad, behind);
    SkipStops(white, key + (middle + body));
    SkipStops(middle, body);
    SkipStops(gap, first + (pad + behind));
    SkipStops(pad, behind);
  }

  lemma FieldsParts(fields: Fields)
    requires fields.Field? && GoodFields(fields)
    ensures GoodText(fields.name) && GoodWritten(fields.value) && GoodFields(fields.next)
    ensures AllWhite(fields.before) && AllWhite(fields.middle) && AllWhite(fields.gap) && AllWhite(fields.after)
    ensures fields.next.Field? ==> AllWhite(fields.next.before)
    ensures FieldsMeaning(fields) ==
      Member(CString(BytesOf(fields.name)), Meaning(fields.value), FieldsMeaning(fields.next))
    ensures FieldsMeaning(NoField) == NoMember
    ensures var d := MembersDepth(FieldsMeaning(fields));
      d == Max(Depth(Meaning(fields.value)), MembersDepth(FieldsMeaning(fields.next)))
    ensures MembersDepth(NoMember) == 0
    ensures FieldsText(fields) ==
      StringText(fields.name) + fields.middle + [58] + fields.gap + WrittenText(fields.value) + fields.after +
      if fields.next == NoField then [] else [44] + fields.next.before + FieldsText(fields.next)
  {
    hide BytesOf, CString;
  }

  lemma RegroupFields(w: seq<byte>, k: seq<byte>, m: seq<byte>, c: seq<byte>, g: seq<byte>, a: seq<byte>,
      pad: seq<byte>, tail: seq<byte>, b: seq<byte>, r: seq<byte>)
    ensures w + (k + m + c + g + a + pad + tail) + b + r == w + k + m + c + g + a + pad + (tail + b + r)
  {
  }

  /** What the parser finds first, in the text of a list of members. */
  lemma FirstFieldBack(f: Fields, front: byte, white: seq<byte>, behind: seq<byte>, depth: nat)
    requires f.Field? && GoodFields(f) && AllWhite(white) && behind != [] && !IsWhite(behind[0])
    requires ReadsAs(f.value, WrittenText(f.value) + (f.after + behind), depth)
    ensures var name, value := StringText(f.name), WrittenText(f.value);
      var text := [front] + white + name + f.middle + [58] + f.gap + value + f.after + behind;
      var end := |text| - |behind|;
      var head := NextMember(text, depth);
      text[end..] == behind && text[end] == behind[0] &&
      if Depth(Meaning(f.value)) + depth <= NESTING_LIMIT then
        head == MemberHead(CString(BytesOf(f.name)), Meaning(f.value), end)
      else head.BadMember?
  {
    hide *;
    FieldsParts(f);
    Marks();
    WrittenStarts(f.value);
    var key, first := StringText(f.name), WrittenText(f.value);
    var text := [front] + white + key + f.middle + [58] + f.gap + first + f.after + behind;
    ReadsMeans(f.value, first + (f.after + behind), depth);
    MemberPlaces(front, white, f.name, f.middle, f.gap, first, f.after, behind);
    NextMemberRule(text, |white|, BytesOf(f.name), |key|, |f.middle|, |f.gap|, |first|, |f.after|, depth);
  }

  lemma {:induction false} FieldsBack(fields: Fields, front: byte, white: seq<byte>, rest: seq<byte>, depth: nat)
    requires fields.Field? && GoodFields(fields) && AllWhite(white) && depth <= NESTING_LIMIT
    ensures var inner := FieldsText(fields);
      var r := ParseMembers([front] + white + inner + [125] + rest, depth);
      if MembersDepth(FieldsMeaning(fields)) + depth <= NESTING_LIMIT then
        r == SomeMembers(FieldsMeaning(fields), 1 + |white| + |inner|)
      else r.NoMembers?
    decreases fields, 0
  {
    hide *;
    FieldsParts(fields);
    Marks();
    var tail := if fields.next == NoField then [] else [44] + fields.next.before + FieldsText(fields.next);
    var behind := tail + [125] + rest;
    var key, first := StringText(fields.name), WrittenText(fields.value);
    var text := [front] + white + key + fields.middle + [58] + fields.gap + first + fields.after + behind;
    RegroupFields([front] + white, key, fields.middle, [58], fields.gap, first, fields.after, tail, [125], rest);
    PadDelimits(fields.after, behind);
    WrittenBack(fields.value, fields.after + behind, depth);
    FirstFieldBack(fields, front, white, behind, depth);
    MembersRule(text, depth);
    MaxMeans(Depth(Meaning(fields.value)), MembersDepth(FieldsMeaning(fields.next)));
    if fields.next.Field? {
      FieldsBack(fields.next, COMMA, fields.next.before, rest, depth);
    }
  }

  lemma FieldsStart(fields: Fields)
    requires fields.Field? && GoodFields(fields)
    ensures var inner := FieldsText(fields); inner != [] && inner[0] == QUOTE
  {
    hide WrittenText, TextsOf;
  }

  lemma FilledRecordBack(fields: Fields, rest: seq<byte>, depth: nat)
    requires fields.Field? && GoodFields(fields) && depth < NESTING_LIMIT
    ensures var inner := fields.before + FieldsText(fields);
      var r := ParseValue([123] + inner + [125] + rest, depth);
      if 1 + MembersDepth(FieldsMeaning(fields)) + depth <= NESTING_LIMIT then
        r == Success(Object(FieldsMeaning(fields)), |inner| + 2)
      else r.Failure?
    decreases fields, 1
  {
    hide *;
    FieldsParts(fields);
    FieldsStart(fields);
    Marks();
    NoWhite();
    var white, inner := fields.before, FieldsText(fields);
    var body := inner + [125] + rest;
    var text := [123] + white + body;
    BracketText(123, white, body);
    OpensObject(text, depth);
    ObjectRule(text, |white|, depth);
    FieldsBack(fields, text[|white|], [], rest, depth + 1);
    assert [text[|white|]] + [] + inner + [125] + rest == [text[|white|]] + body;
    assert [123] + (white + inner) + [125] + rest == text;
  }

  lemma EmptyRecordBack(gap: seq<byte>, rest: seq<byte>, depth: nat)
    requires AllWhite(gap) && depth < NESTING_LIMIT
    ensures ParseValue([123] + gap + [125] + rest, depth) == Success(Object(NoMember), |gap| + 2)
  {
    hide *;
    Marks();
    var body := [125] + rest;
    var text := [123] + gap + body;
    BracketText(123, gap, body);
    OpensObject(text, depth);
    EmptyObjectRule(text, |gap|, depth);
    assert [123] + gap + [125] + rest == text;
  }

  lemma RecordParts(gap: seq<byte>, fields: Fields)
    requires GoodWritten(Record(gap, fields))
    ensures AllWhite(gap) && GoodFields(fields) && Meaning(Record(gap, fields)) == Object(FieldsMeaning(fields))
    ensures Depth(Object(FieldsMeaning(fields))) == 1 + MembersDepth(FieldsMeaning(fields))
    ensures fields == NoField ==> FieldsMeaning(fields) == NoMember && MembersDepth(NoMember) == 0
    ensures WrittenText(Record(gap, fields)) ==
      [123] + (if fields == NoField then gap else fields.before + FieldsText(fields)) + [125]
  {
    hide FieldsText, AllWhite, GoodText, BytesOf, CString;
  }

  lemma RecordBack(gap: seq<byte>, fields: Fields, rest: seq<byte>, depth: nat)
    requires GoodWritten(Record(gap, fields)) && depth <= NESTING_LIMIT
    ensures ReadsAs(Record(gap, fields), WrittenText(Record(gap, fields)) + rest, depth)
    decreases fields, 2
  {
    hide *;
    var w := Record(gap, fields);
    RecordParts(gap, fields);
    Marks();
    var text := WrittenText(w) + rest;
    ReadsMeans(w, text, depth);
    if depth == NESTING_LIMIT {
      TooDeep(text);
    } else if fields == NoField {
      EmptyRecordBack(gap, rest, depth);
    } else {
      FilledRecordBack(fields, rest, depth);
    }
  }

  // ---- Every written value ----

  lemma Childless(w: Written)
    requires GoodWritten(w) && !w.List? && !w.Record?
    ensures Depth(Meaning(w)) == 0
    ensures match w
      case Word(word) =>
        (word == Null || word == False || word == True) && Meaning(w) == word && WrittenText(w) == WordText(word)
      case Figure(n) => GoodNumeral(n) && Meaning(w) == NumberOf(NumeralValue(n)) && WrittenText(w) == NumeralText(n)
      case Text(cs) => GoodText(cs) && Meaning(w) == String(CString(BytesOf(cs))) && WrittenText(w) == StringText(cs)
      case _ => false
  {
    hide NumeralValue, CString, BytesOf;
  }

  /**
   Every written value, whatever its white space, spellings and numerals, is read as what it means if at most 1000
   arrays and objects are nested in each other, and refused if more are; in the middle of a text and below other lists
   as well.
   */
  lemma {:induction false} WrittenBack(w: Written, rest: seq<byte>, depth: nat)
    requires GoodWritten(w) && Delimited(rest) && depth <= NESTING_LIMIT
    ensures var r := ParseValue(WrittenText(w) + rest, depth);
      if Depth(Meaning(w)) + depth <= NESTING_LIMIT then r == Success(Meaning(w), |WrittenText(w)|) else r.Failure?
    ensures ReadsAs(w, WrittenText(w) + rest, depth)
    decreases w
  {
    hide *;
    ReadsMeans(w, WrittenText(w) + rest, depth);
    if w.List? {
      ListBack(w.gap, w.items, rest, depth);
    } else if w.Record? {
      RecordBack(w.gap, w.fields, rest, depth);
    } else {
      Childless(w);
      match w
      case Word(word) => WordBack(word, rest, depth);
      case Figure(n) => FigureBack(n, rest, depth);
      case Text(cs) => TextBack(cs, rest, depth);
      case _ =>
    }
  }
}
