/** Whatever the parser accepts is a written value, and what it returns is what that means. */
module JsonSound {
  import opened Bytes
  import opened JsonComplete
  import opened JsonNumber
  import opened JsonNumeral
  import opened JsonParse
  import opened JsonSpelling
  import opened JsonString
  import opened JsonSyntax
  import opened JsonValue

  // ---- Strings ----

  lemma TextsOfOneMore(c: Character, cs: seq<Character>)
    requires Good(c.spelling) && Means(c.spelling, c.bytes) && Spelled(cs) && LoneIsLast(cs, [])
    requires c.spelling == Lone ==> cs == []
    ensures Spelled([c] + cs) && LoneIsLast([c] + cs, [])
    ensures TextsOf([c] + cs) == TextOf(c.spelling) + TextsOf(cs) && BytesOf([c] + cs) == c.bytes + BytesOf(cs)
  {
    hide Good, Means, TextOf;
    assert ([c] + cs)[1..] == cs;
  }

  lemma {:induction false} CharactersFound(t: seq<byte>) returns (cs: seq<Character>)
    requires Unescape(t).Text?
    ensures Spelled(cs) && LoneIsLast(cs, []) && TextsOf(cs) == t && BytesOf(cs) == Unescape(t).bytes
    decreases |t|
  {
    hide *;
    cs := [];
    if t == [] {
      NothingWritten();
    } else {
      if Refused(t) {
        RefusedIsStuck(t);
        assert false;
      }
      var p, bytes := SpelledOrRefused(t);
      SomeText(p);
      var rest := t[|TextOf(p)|..];
      assert t == TextOf(p) + rest;
      SpelledUnescapes(p, bytes, rest);
      AfterMeans(bytes, |TextOf(p)|, Unescape(rest));
      var others := CharactersFound(rest);
      if p == Lone {
        NothingLeft(others);
      }
      TextsOfOneMore(Character(p, bytes), others);
      cs := [Character(p, bytes)] + others;
    }
  }

  lemma NothingWritten()
    ensures Spelled([]) && LoneIsLast([], []) && TextsOf([]) == [] && BytesOf([]) == [] && Unescape([]) == Text.Text([])
  {
  }

  lemma AfterMeans(bytes: seq<byte>, used: nat, rest: Text)
    ensures After(bytes, used, rest) ==
      if rest.Text? then Text.Text(bytes + rest.bytes) else Stuck(used + rest.at)
  {
  }

  lemma SomeText(p: Spelling)
    requires Good(p)
    ensures TextOf(p) != [] && TextOf(Lone) == [92]
  {
  }

  lemma NothingLeft(cs: seq<Character>)
    requires TextsOf(cs) == [] && Spelled(cs)
    ensures cs == []
  {
    if cs != [] {
      SomeText(cs[0].spelling);
    }
    hide TextOf, Good, Means;
  }

  lemma StringParts(s: seq<byte>) returns (end: nat)
    requires s != [] && ParseString(s).Parsed?
    ensures s[0] == 34 && ClosingQuote(s, 1) == Some(end) && 1 <= end < |s| && s[end] == 34
    ensures Unescape(s[1..end]) == Text.Text(ParseString(s).bytes) && ParseString(s).used == end + 1
  {
    end := ClosingQuote(s, 1).value;
    hide ClosingQuote, Unescape;
  }

  lemma StringFound(s: seq<byte>) returns (cs: seq<Character>)
    requires s != [] && ParseString(s).Parsed?
    ensures GoodText(cs) && s[..ParseString(s).used] == StringText(cs) && ParseString(s).bytes == BytesOf(cs)
  {
    hide ParseString, Unescape, ClosingQuote, Spelled, LoneIsLast, TextsOf, BytesOf, Enclosed;
    var end := StringParts(s);
    cs := CharactersFound(s[1..end]);
    ClosesIff(s, 1, end);
    assert s[..end + 1] == [34] + s[1..end] + [34];
  }

  // ---- Numbers ----

  lemma PointFirst(n: Numeral, tail: seq<byte>)
    requires GoodNumeral(n) && n.sign == [] && n.whole == []
    ensures NumeralText(n) + tail != [] && (NumeralText(n) + tail)[0] == 46
  {
    hide AreDigits;
  }

  lemma FirstOfNumeral(n: Numeral, tail: seq<byte>)
    requires GoodNumeral(n) && NumeralText(n) + tail != []
    requires var b := (NumeralText(n) + tail)[0]; b == MINUS || IsDigit(b)
    ensures GoodWritten(Figure(n))
  {
    hide AreDigits;
    if n.sign != [] {
      assert (NumeralText(n) + tail)[0] == n.sign[0];
    } else if n.whole == [] {
      PointFirst(n, tail);
      assert false;
    }
  }

  lemma NumberRule(s: seq<byte>)
    requires JsonNumber.ParseNumber(s).used > 0
    ensures 0 < NumberRun(s) <= |s| && Strtod(s[..NumberRun(s)]) == JsonNumber.ParseNumber(s)
    ensures JsonNumber.ParseNumber(s).used <= NumberRun(s)
  {
    hide Strtod;
  }

  lemma FigureFound(s: seq<byte>) returns (n: Numeral)
    requires s != [] && (s[0] == MINUS || IsDigit(s[0])) && JsonNumber.ParseNumber(s).used > 0
    ensures GoodWritten(Figure(n)) && s[..JsonNumber.ParseNumber(s).used] == NumeralText(n)
    ensures GoodNumeral(n) && JsonNumber.ParseNumber(s).value == NumeralValue(n)
  {
    hide *;
    NumberRule(s);
    var run := s[..NumberRun(s)];
    assert run[0] == s[0];
    var tail;
    n, tail := NumeralFound(run);
    StrtodMeans(n, tail);
    FirstOfNumeral(n, tail);
    var used := JsonNumber.ParseNumber(s).used;
    assert s[..used] == run[..used];
  }

  // ---- Gaps ----

  lemma {:induction false} RunIsWhite(s: seq<byte>)
    ensures AllWhite(s[..WhiteRun(s)])
  {
    if s != [] && IsWhite(s[0]) {
      RunIsWhite(s[1..]);
      assert s[..WhiteRun(s)] == [s[0]] + s[1..][..WhiteRun(s[1..])];
    }
  }

  lemma GapFound(s: seq<byte>, at: nat) returns (gap: seq<byte>)
    requires at <= |s|
    ensures at + Skip(s[at..]) <= |s| && AllWhite(gap) && gap == s[at..at + Skip(s[at..])]
  {
    RunIsWhite(s[at..]);
    gap := s[at..at + Skip(s[at..])];
    assert gap == s[at..][..Skip(s[at..])];
  }

  lemma WhiteConcat(a: seq<byte>, b: seq<byte>)
    requires AllWhite(a) && AllWhite(b)
    ensures AllWhite(a + b)
  {
  }

  // ---- Values ----

  /** `w` is the written value that `s` starts with, and the parser has read it. */
  ghost predicate Reads(s: seq<byte>, r: Outcome, w: Written) {
    r.Success? && r.used <= |s| && GoodWritten(w) && s[..r.used] == WrittenText(w) && r.value == Meaning(w)
  }

  lemma WordFound(s: seq<byte>, depth: nat) returns (w: Written)
    requires NULL_TEXT <= s || FALSE_TEXT <= s || TRUE_TEXT <= s
    ensures Reads(s, ParseValue(s, depth), w)
  {
    w := Word(if NULL_TEXT <= s then Null else if FALSE_TEXT <= s then False else True);
  }

  predicate StartsWord(s: seq<byte>) {
    NULL_TEXT <= s || FALSE_TEXT <= s || TRUE_TEXT <= s
  }

  /** Which kind of value the parser tries. */
  lemma ValueRule(s: seq<byte>, depth: nat)
    requires ParseValue(s, depth).Success? && !StartsWord(s)
    ensures s != []
    ensures var r := ParseValue(s, depth);
      (s[0] == QUOTE && ParseString(s).Parsed? &&
       r == Success(String(CString(ParseString(s).bytes)), ParseString(s).used)) ||
      ((s[0] == MINUS || IsDigit(s[0])) && JsonNumber.ParseNumber(s).used > 0 &&
       r == Success(NumberOf(JsonNumber.ParseNumber(s).value), JsonNumber.ParseNumber(s).used)) ||
      (s[0] == OPEN_BRACKET && r == ParseArray(s, depth)) || (s[0] == OPEN_BRACE && r == ParseObject(s, depth))
  {
    hide ParseString, JsonNumber.ParseNumber, ParseArray, ParseObject, CString, NumberOf;
  }

  lemma TextReads(s: seq<byte>, r: Outcome) returns (w: Written)
    requires s != [] && ParseString(s).Parsed?
    requires r == Success(String(CString(ParseString(s).bytes)), ParseString(s).used)
    ensures Reads(s, r, w)
  {
    hide ParseString, CString, StringText, BytesOf, GoodText;
    var cs := StringFound(s);
    w := Written.Text(cs);
  }

  lemma FigureReads(s: seq<byte>, r: Outcome) returns (w: Written)
    requires s != [] && (s[0] == MINUS || IsDigit(s[0])) && JsonNumber.ParseNumber(s).used > 0
    requires r == Success(NumberOf(JsonNumber.ParseNumber(s).value), JsonNumber.ParseNumber(s).used)
    ensures Reads(s, r, w)
  {
    hide JsonNumber.ParseNumber, NumberOf, NumeralText, NumeralValue, GoodNumeral;
    var n := FigureFound(s);
    w := Figure(n);
  }

  // ---- Lists ----

  /** The elements read up to position `end` are these items, behind the character in front of them. */
  ghost predicate ReadsItems(s: seq<byte>, r: ElementsOutcome, items: Items) {
    r.SomeElements? && 1 <= r.end <= |s| && items.Item? && GoodItems(items) &&
    s[1..r.end] == items.before + ItemsText(items) && r.elements == ItemsMeaning(items)
  }

  lemma ElementHeadRule(s: seq<byte>, depth: nat)
    requires s != [] && NextElement(s, depth).ElementHead?
    ensures var start := 1 + Skip(s[1..]);
      start <= |s| &&
      var v := ParseValue(s[start..], depth);
      v.Success? && start + v.used <= |s| &&
      NextElement(s, depth) == ElementHead(v.value, start + v.used + Skip(s[start + v.used..]))
  {
    hide ParseValue, Skip;
  }

  lemma ElementsCases(s: seq<byte>, depth: nat)
    requires s != [] && ParseElements(s, depth).SomeElements?
    ensures var head, r := NextElement(s, depth), ParseElements(s, depth);
      head.ElementHead? && head.end < |s| &&
      ((s[head.end] == CLOSE_BRACKET && r == SomeElements(Element(head.value, NoElement), head.end)) ||
       (s[head.end] == COMMA &&
        var more := ParseElements(s[head.end..], depth);
        more.SomeElements? && r == SomeElements(Element(head.value, more.elements), head.end + more.end)))
  {
    hide NextElement;
  }

  /** An item that stands in `s` from position 1 up to `end`. */
  lemma LastItem(s: seq<byte>, end: nat, before: seq<byte>, w: Written, after: seq<byte>, value: Json)
    requires AllWhite(before) && AllWhite(after) && GoodWritten(w) && Meaning(w) == value
    requires 1 <= end <= |s| && s[1..end] == before + WrittenText(w) + after
    ensures ReadsItems(s, SomeElements(Element(value, NoElement), end), Item(before, w, after, NoItem))
  {
    var items := Item(before, w, after, NoItem);
    hide WrittenText, Meaning, GoodWritten, AllWhite;
    assert before + WrittenText(w) + after == before + (WrittenText(w) + after + []);
    assert GoodItems(NoItem) && ItemsMeaning(NoItem) == NoElement;
    assert ItemsText(items) == WrittenText(w) + after + [];
  }

  lemma MoreItems(s: seq<byte>, end: nat, before: seq<byte>, w: Written, after: seq<byte>, value: Json,
      more: ElementsOutcome, items: Items)
    requires AllWhite(before) && AllWhite(after) && GoodWritten(w) && Meaning(w) == value
    requires 1 <= end < |s| && s[1..end] == before + WrittenText(w) + after && s[end] == 44
    requires ReadsItems(s[end..], more, items)
    ensures ReadsItems(s, SomeElements(Element(value, more.elements), end + more.end), Item(before, w, after, items))
  {
    hide WrittenText, Meaning, GoodWritten, AllWhite;
    var all := Item(before, w, after, items);
    var rest := items.before + ItemsText(items);
    JoinAtMark(s, end, more.end, rest);
    assert ItemsText(all) == WrittenText(w) + after + ([44] + items.before + ItemsText(items));
    hide ItemsText;
    assert [44] + items.before + ItemsText(items) == [44] + rest;
    assert before + WrittenText(w) + after + ([44] + rest) == before + (WrittenText(w) + after + ([44] + rest));
  }

  lemma JoinAtMark(s: seq<byte>, end: nat, n: nat, rest: seq<byte>)
    requires 1 <= end < |s| && 1 <= n <= |s| - end && s[end..][1..n] == rest
    ensures s[1..end + n] == s[1..end] + ([s[end]] + rest)
  {
    assert s[end..][1..n] == s[end + 1..end + n];
    assert s[1..end + n] == s[1..end] + s[end..end + n];
    assert s[end..end + n] == [s[end]] + s[end + 1..end + n];
  }

  lemma HeadText(s: seq<byte>, start: nat, used: nat, end: nat, before: seq<byte>, text: seq<byte>, after: seq<byte>)
    requires 1 <= start && start + used <= end <= |s|
    requires before == s[1..start] && s[start..][..used] == text && after == s[start + used..end]
    ensures s[1..end] == before + text + after
  {
    assert text == s[start..start + used];
  }

  /** A value and the gaps around it, as the first element of a list. */
  lemma HeadFound(s: seq<byte>, depth: nat) returns (before: seq<byte>, w: Written, after: seq<byte>)
    requires s != [] && NextElement(s, depth).ElementHead?
    ensures var head := NextElement(s, depth);
      1 <= head.end <= |s| && AllWhite(before) && AllWhite(after) && GoodWritten(w) && Meaning(w) == head.value &&
      s[1..head.end] == before + WrittenText(w) + after
    decreases |s|, 0
  {
    hide *;
    ElementHeadRule(s, depth);
    var start := 1 + Skip(s[1..]);
    before := GapFound(s, 1);
    w := ValueFound(s[start..], depth);
    var v := ParseValue(s[start..], depth);
    ReadsMeans(s[start..], v, w);
    after := GapFound(s, start + v.used);
    HeadText(s, start, v.used, NextElement(s, depth).end, before, WrittenText(w), after);
  }

  lemma ReadsMeans(s: seq<byte>, r: Outcome, w: Written)
    requires Reads(s, r, w)
    ensures r.Success? && r.used <= |s| && GoodWritten(w) && s[..r.used] == WrittenText(w) && r.value == Meaning(w)
  {
  }

  lemma {:induction false} ItemsFound(s: seq<byte>, depth: nat) returns (items: Items)
    requires s != [] && ParseElements(s, depth).SomeElements?
    ensures ReadsItems(s, ParseElements(s, depth), items)
    decreases |s|, 1
  {
    hide *;
    ElementsCases(s, depth);
    Marks();
    var head := NextElement(s, depth);
    var before, w, after := HeadFound(s, depth);
    if s[head.end] == CLOSE_BRACKET {
      LastItem(s, head.end, before, w, after, head.value);
      items := Item(before, w, after, NoItem);
    } else {
      var others := ItemsFound(s[head.end..], depth);
      MoreItems(s, head.end, before, w, after, head.value, ParseElements(s[head.end..], depth), others);
      items := Item(before, w, after, others);
    }
  }

  lemma ArrayCases(s: seq<byte>, depth: nat)
    requires s != [] && s[0] == OPEN_BRACKET && ParseArray(s, depth).Success?
    ensures var r, white := ParseArray(s, depth), Skip(s[1..]);
      (1 + white < |s| && s[1 + white] == CLOSE_BRACKET && r == Success(Array(NoElement), white + 2)) ||
      (white < |s| && var more := ParseElements(s[white..], depth + 1);
       more.SomeElements? && white + more.end < |s| && s[white + more.end] == CLOSE_BRACKET &&
       r == Success(Array(more.elements), white + more.end + 1))
  {
    hide ParseElements, Skip;
  }

  lemma EmptyListReads(s: seq<byte>, gap: seq<byte>)
    requires AllWhite(gap) && |s| >= |gap| + 2 && s[0] == 91 && s[1..1 + |gap|] == gap && s[1 + |gap|] == 93
    ensures Reads(s, Success(Array(NoElement), |gap| + 2), List(gap, NoItem))
  {
    assert s[..|gap| + 2] == [91] + gap + [93];
  }

  /** The gap in front of the first item is looked at twice. */
  function Behind(gap: seq<byte>, items: Items): Items
    requires items.Item?
  {
    items.(before := gap + items.before)
  }

  lemma ListReads(s: seq<byte>, gap: seq<byte>, more: ElementsOutcome, items: Items)
    requires AllWhite(gap) && |gap| < |s| && s[0] == 91 && s[1..1 + |gap|] == gap
    requires ReadsItems(s[|gap|..], more, items) && |gap| + more.end < |s| && s[|gap| + more.end] == 93
    ensures Reads(s, Success(Array(more.elements), |gap| + more.end + 1), List([], Behind(gap, items)))
  {
    hide *;
    var n := |gap|;
    ReadsItemsMeans(s[n..], more, items);
    var all := Behind(gap, items);
    BehindMeans(gap, items);
    FilledList(all);
    var inner := items.before + ItemsText(items);
    InBrackets(s, n, more.end, inner);
    assert gap + inner == gap + items.before + ItemsText(items);
    ReadsRule(s, Success(Array(more.elements), n + more.end + 1), List([], all));
  }

  /** A text in brackets, of which the first `n` characters are looked at twice. */
  lemma InBrackets(s: seq<byte>, n: nat, end: nat, inner: seq<byte>)
    requires 1 <= end && n + end < |s| && s[n..][1..end] == inner
    ensures s[..n + end + 1] == [s[0]] + (s[1..1 + n] + inner) + [s[n + end]]
  {
    assert s[n..][1..end] == s[n + 1..n + end];
    assert s[1..1 + n] + s[n + 1..n + end] == s[1..n + end];
  }

  lemma FilledList(items: Items)
    requires items.Item? && GoodItems(items)
    ensures GoodWritten(List([], items)) && Meaning(List([], items)) == Array(ItemsMeaning(items))
    ensures WrittenText(List([], items)) == [91] + (items.before + ItemsText(items)) + [93]
  {
  }

  lemma ReadsRule(s: seq<byte>, r: Outcome, w: Written)
    requires r.Success? && r.used <= |s| && GoodWritten(w) && s[..r.used] == WrittenText(w) && r.value == Meaning(w)
    ensures Reads(s, r, w)
  {
  }

  lemma BehindMeans(gap: seq<byte>, items: Items)
    requires AllWhite(gap) && items.Item? && GoodItems(items)
    ensures var all := Behind(gap, items);
      all.Item? && all.before == gap + items.before && GoodItems(all) && ItemsText(all) == ItemsText(items) &&
      ItemsMeaning(all) == ItemsMeaning(items)
  {
    WhiteConcat(gap, items.before);
    hide AllWhite;
  }

  lemma AtStart(s: seq<byte>, b: byte)
    requires At(s, 0, b)
    ensures s != [] && s[0] == b
  {
  }

  lemma ArrayFound(s: seq<byte>, depth: nat) returns (w: Written)
    requires At(s, 0, OPEN_BRACKET) && ParseArray(s, depth).Success?
    ensures Reads(s, ParseArray(s, depth), w)
    decreases |s|, 2
  {
    hide *;
    AtStart(s, OPEN_BRACKET);
    ArrayCases(s, depth);
    Marks();
    var white := Skip(s[1..]);
    var gap := GapFound(s, 1);
    var empty := Success(Array(NoElement), white + 2);
    if 1 + white < |s| && s[1 + white] == CLOSE_BRACKET && ParseArray(s, depth) == empty {
      EmptyListReads(s, gap);
      w := List(gap, NoItem);
    } else {
      var items := ItemsFound(s[white..], depth + 1);
      ReadsItemsMeans(s[white..], ParseElements(s[white..], depth + 1), items);
      ListReads(s, gap, ParseElements(s[white..], depth + 1), items);
      w := List([], Behind(gap, items));
    }
  }

  lemma ReadsItemsMeans(s: seq<byte>, r: ElementsOutcome, items: Items)
    requires ReadsItems(s, r, items)
    ensures r.SomeElements? && 1 <= r.end <= |s| && items.Item? && GoodItems(items)
    ensures s[1..r.end] == items.before + ItemsText(items) && r.elements == ItemsMeaning(items)
  {
  }

  // ---- Records ----

  ghost predicate ReadsFields(s: seq<byte>, r: MembersOutcome, fields: Fields) {
    r.SomeMembers? && 1 <= r.end <= |s| && fields.Field? && GoodFields(fields) &&
    s[1..r.end] == fields.before + FieldsText(fields) && r.members == FieldsMeaning(fields)
  }

  lemma NameStarts(s: seq<byte>)
    requires s != [] && NextName(s).NameHead?
    ensures var start := 1 + Skip(s[1..]); start < |s| && ParseString(s[start..]).Parsed?
  {
    hide ParseString, Skip, CString;
  }

  lemma NameRule(s: seq<byte>, start: nat, key: seq<byte>, used: nat)
    requires s != [] && NextName(s).NameHead? && start == 1 + Skip(s[1..]) && start < |s|
    requires ParseString(s[start..]) == Parsed(key, used)
    ensures start + used <= |s|
    ensures var colon := start + used + Skip(s[start + used..]);
      colon < |s| && s[colon] == COLON && NextName(s) == NameHead(CString(key), colon)
  {
    hide ParseString, Skip, CString;
  }

  lemma MemberHasName(s: seq<byte>, depth: nat)
    requires s != [] && NextMember(s, depth).MemberHead?
    ensures NextName(s).NameHead?
  {
    hide ParseValue, Skip, NextName;
  }

  lemma MemberHeadRule(s: seq<byte>, depth: nat, colon: nat, start: nat)
    requires s != [] && NextMember(s, depth).MemberHead? && NextName(s).NameHead? && NextName(s).colon == colon
    requires colon < |s| && start == colon + 1 + Skip(s[colon + 1..])
    ensures start <= |s| && ParseValue(s[start..], depth).Success?
    ensures var v := ParseValue(s[start..], depth);
      start + v.used <= |s| &&
      NextMember(s, depth) == MemberHead(NextName(s).key, v.value, start + v.used + Skip(s[start + v.used..]))
  {
    hide ParseValue, Skip, NextName;
  }

  lemma MembersCases(s: seq<byte>, depth: nat)
    requires s != [] && ParseMembers(s, depth).SomeMembers?
    ensures var head, r := NextMember(s, depth), ParseMembers(s, depth);
      head.MemberHead? && head.end < |s| &&
      ((s[head.end] == CLOSE_BRACE && r == SomeMembers(Member(head.key, head.value, NoMember), head.end)) ||
       (s[head.end] == COMMA &&
        var more := ParseMembers(s[head.end..], depth);
        more.SomeMembers? && r == SomeMembers(Member(head.key, head.value, more.members), head.end + more.end)))
  {
    hide NextMember;
  }

  /** One member, with the gaps around its parts, standing in `s` from position 1 up to `end`. */
  ghost predicate OneField(s: seq<byte>, end: nat, f: Fields, key: seq<byte>, value: Json) {
    1 <= end <= |s| && f.Field? && f.next == NoField && GoodFields(f) &&
    s[1..end] == f.before + FieldsText(f) && FieldsMeaning(f) == Member(key, value, NoMember)
  }

  lemma NameFound(s: seq<byte>) returns (before: seq<byte>, name: seq<Character>, middle: seq<byte>)
    requires s != [] && NextName(s).NameHead?
    ensures var head := NextName(s);
      AllWhite(before) && AllWhite(middle) && GoodText(name) && head.key == CString(BytesOf(name)) &&
      1 <= head.colon < |s| && s[head.colon] == 58 && s[1..head.colon] == before + StringText(name) + middle
  {
    hide *;
    NameStarts(s);
    Marks();
    var start := 1 + Skip(s[1..]);
    before := GapFound(s, 1);
    name := StringFound(s[start..]);
    var used := ParseString(s[start..]).used;
    NameRule(s, start, BytesOf(name), used);
    middle := GapFound(s, start + used);
    HeadText(s, start, used, NextName(s).colon, before, StringText(name), middle);
  }

  lemma FieldText(f: Fields)
    requires f.Field? && f.next == NoField
    ensures FieldsText(f) == StringText(f.name) + f.middle + [58] + f.gap + WrittenText(f.value) + f.after
  {
    hide StringText, WrittenText;
  }

  lemma FieldMeaning(f: Fields)
    requires f.Field? && f.next == NoField && AllWhite(f.before) && AllWhite(f.middle) && AllWhite(f.gap)
    requires AllWhite(f.after) && GoodText(f.name) && GoodWritten(f.value)
    ensures GoodFields(f) && FieldsMeaning(f) == Member(CString(BytesOf(f.name)), Meaning(f.value), NoMember)
  {
    hide GoodText, GoodWritten, AllWhite, CString, BytesOf, Meaning;
    assert GoodFields(NoField) && FieldsMeaning(NoField) == NoMember;
  }

  lemma FieldPieces(s: seq<byte>, colon: nat, end: nat, a: seq<byte>, k: seq<byte>, m: seq<byte>, g: seq<byte>,
      v: seq<byte>, b: seq<byte>)
    requires 1 <= colon < end <= |s| && s[1..colon] == a + k + m && s[colon] == 58 && s[colon + 1..end] == g + v + b
    ensures s[1..end] == a + (k + m + [58] + g + v + b)
  {
    assert s[1..end] == s[1..colon] + ([s[colon]] + s[colon + 1..end]);
  }

  lemma FieldHeadText(s: seq<byte>, colon: nat, start: nat, used: nat, end: nat, gap: seq<byte>, text: seq<byte>,
      after: seq<byte>)
    requires colon < start && start + used <= end <= |s|
    requires gap == s[colon + 1..start] && s[start..][..used] == text && after == s[start + used..end]
    ensures s[colon + 1..end] == gap + text + after
  {
    assert text == s[start..start + used];
  }

  lemma FieldFound(s: seq<byte>, depth: nat) returns (f: Fields)
    requires s != [] && NextMember(s, depth).MemberHead?
    ensures OneField(s, NextMember(s, depth).end, f, NextMember(s, depth).key, NextMember(s, depth).value)
    decreases |s|, 0
  {
    hide *;
    MemberHasName(s, depth);
    var before, name, middle := NameFound(s);
    var colon, end := NextName(s).colon, NextMember(s, depth).end;
    var start := colon + 1 + Skip(s[colon + 1..]);
    MemberHeadRule(s, depth, colon, start);
    var gap := GapFound(s, colon + 1);
    var w := ValueFound(s[start..], depth);
    var v := ParseValue(s[start..], depth);
    ReadsMeans(s[start..], v, w);
    var after := GapFound(s, start + v.used);
    f := Field(before, name, middle, gap, w, after, NoField);
    FieldHeadText(s, colon, start, v.used, end, gap, WrittenText(w), after);
    FieldPieces(s, colon, end, before, StringText(name), middle, gap, WrittenText(w), after);
    FieldText(f);
    FieldMeaning(f);
    OneFieldRule(s, end, f, NextMember(s, depth).key, NextMember(s, depth).value);
  }

  lemma OneFieldRule(s: seq<byte>, end: nat, f: Fields, key: seq<byte>, value: Json)
    requires 1 <= end <= |s| && f.Field? && f.next == NoField && GoodFields(f)
    requires s[1..end] == f.before + FieldsText(f) && FieldsMeaning(f) == Member(key, value, NoMember)
    ensures OneField(s, end, f, key, value)
    ensures ReadsFields(s, SomeMembers(Member(key, value, NoMember), end), f)
  {
    hide FieldsText, FieldsMeaning, GoodFields;
  }

  lemma OneFieldMeans(s: seq<byte>, end: nat, f: Fields, key: seq<byte>, value: Json)
    requires OneField(s, end, f, key, value)
    ensures 1 <= end <= |s| && f.Field? && f.next == NoField && GoodFields(f)
    ensures s[1..end] == f.before + FieldsText(f) && FieldsMeaning(f) == Member(key, value, NoMember)
  {
  }

  lemma FieldsJoined(f: Fields, others: Fields)
    requires f.Field? && f.next == NoField && GoodFields(f) && others.Field? && GoodFields(others)
    ensures var all := f.(next := others);
      GoodFields(all) && FieldsText(all) == FieldsText(f) + ([44] + others.before + FieldsText(others)) &&
      FieldsMeaning(all) == Member(FieldsMeaning(f).key, FieldsMeaning(f).value, FieldsMeaning(others))
  {
    hide GoodText, GoodWritten, AllWhite, CString, BytesOf, Meaning, StringText, WrittenText;
    FieldText(f);
  }

  lemma MoreFields(s: seq<byte>, end: nat, f: Fields, key: seq<byte>, value: Json, more: MembersOutcome, others: Fields)
    requires OneField(s, end, f, key, value) && end < |s| && s[end] == 44 && ReadsFields(s[end..], more, others)
    ensures f.Field?
    ensures ReadsFields(s, SomeMembers(Member(key, value, more.members), end + more.end), f.(next := others))
  {
    hide GoodFields, FieldsText, FieldsMeaning;
    OneFieldMeans(s, end, f, key, value);
    FieldsJoined(f, others);
    var rest := others.before + FieldsText(others);
    JoinAtMark(s, end, more.end, rest);
    assert [44] + others.before + FieldsText(others) == [44] + rest;
    assert f.before + FieldsText(f) + ([44] + rest) == f.before + (FieldsText(f) + ([44] + rest));
  }

  lemma {:induction false} FieldsFound(s: seq<byte>, depth: nat) returns (fields: Fields)
    requires s != [] && ParseMembers(s, depth).SomeMembers?
    ensures ReadsFields(s, ParseMembers(s, depth), fields)
    decreases |s|, 1
  {
    hide *;
    MembersCases(s, depth);
    Marks();
    var head := NextMember(s, depth);
    var f := FieldFound(s, depth);
    OneFieldMeans(s, head.end, f, head.key, head.value);
    if s[head.end] == CLOSE_BRACE {
      OneFieldRule(s, head.end, f, head.key, head.value);
      fields := f;
    } else {
      var others := FieldsFound(s[head.end..], depth);
      MoreFields(s, head.end, f, head.key, head.value, ParseMembers(s[head.end..], depth), others);
      fields := f.(next := others);
    }
  }

  lemma ObjectCases(s: seq<byte>, depth: nat)
    requires s != [] && s[0] == OPEN_BRACE && ParseObject(s, depth).Success?
    ensures var r, white := ParseObject(s, depth), Skip(s[1..]);
      (1 + white < |s| && s[1 + white] == CLOSE_BRACE && r == Success(Object(NoMember), white + 2)) ||
      (white < |s| && var more := ParseMembers(s[white..], depth + 1);
       more.SomeMembers? && white + more.end < |s| && s[white + more.end] == CLOSE_BRACE &&
       r == Success(Object(more.members), white + more.end + 1))
  {
    hide ParseMembers, Skip;
  }

  lemma EmptyRecordReads(s: seq<byte>, gap: seq<byte>)
    requires AllWhite(gap) && |s| >= |gap| + 2 && s[0] == 123 && s[1..1 + |gap|] == gap && s[1 + |gap|] == 125
    ensures Reads(s, Success(Object(NoMember), |gap| + 2), Record(gap, NoField))
  {
    assert s[..|gap| + 2] == [123] + gap + [125];
  }

  lemma FilledRecord(gap: seq<byte>, fields: Fields)
    requires AllWhite(gap) && fields.Field? && GoodFields(fields)
    ensures var w := Record([], fields.(before := gap + fields.before));
      GoodWritten(w) && Meaning(w) == Object(FieldsMeaning(fields)) &&
      WrittenText(w) == [123] + (gap + fields.before + FieldsText(fields)) + [125]
  {
    WhiteConcat(gap, fields.before);
    NoWhite();
    hide AllWhite;
  }

  lemma ReadsFieldsMeans(s: seq<byte>, r: MembersOutcome, fields: Fields)
    requires ReadsFields(s, r, fields)
    ensures r.SomeMembers? && 1 <= r.end <= |s| && fields.Field? && GoodFields(fields)
    ensures s[1..r.end] == fields.before + FieldsText(fields) && r.members == FieldsMeaning(fields)
  {
  }

  lemma RecordReads(s: seq<byte>, gap: seq<byte>, more: MembersOutcome, fields: Fields)
    requires AllWhite(gap) && |gap| < |s| && s[0] == 123 && s[1..1 + |gap|] == gap
    requires ReadsFields(s[|gap|..], more, fields) && |gap| + more.end < |s| && s[|gap| + more.end] == 125
    ensures fields.Field?
    ensures Reads(s, Success(Object(more.members), |gap| + more.end + 1),
              Record([], fields.(before := gap + fields.before)))
  {
    hide *;
    var n := |gap|;
    ReadsFieldsMeans(s[n..], more, fields);
    FilledRecord(gap, fields);
    var inner := fields.before + FieldsText(fields);
    InBrackets(s, n, more.end, inner);
    assert gap + inner == gap + fields.before + FieldsText(fields);
    ReadsRule(s, Success(Object(more.members), n + more.end + 1), Record([], fields.(before := gap + fields.before)));
  }

  lemma ObjectFound(s: seq<byte>, depth: nat) returns (w: Written)
    requires At(s, 0, OPEN_BRACE) && ParseObject(s, depth).Success?
    ensures Reads(s, ParseObject(s, depth), w)
    decreases |s|, 2
  {
    hide *;
    AtStart(s, OPEN_BRACE);
    ObjectCases(s, depth);
    Marks();
    var white := Skip(s[1..]);
    var gap := GapFound(s, 1);
    if 1 + white < |s| && s[1 + white] == CLOSE_BRACE && ParseObject(s, depth) == Success(Object(NoMember), white + 2) {
      EmptyRecordReads(s, gap);
      w := Record(gap, NoField);
    } else {
      var fields := FieldsFound(s[white..], depth + 1);
      ReadsFieldsMeans(s[white..], ParseMembers(s[white..], depth + 1), fields);
      RecordReads(s, gap, ParseMembers(s[white..], depth + 1), fields);
      w := Record([], fields.(before := gap + fields.before));
    }
  }

  // ---- Every accepted text ----

  lemma WordOrNot(s: seq<byte>)
    ensures StartsWord(s) <==> NULL_TEXT <= s || FALSE_TEXT <= s || TRUE_TEXT <= s
    ensures At(s, 0, OPEN_BRACKET) <==> s != [] && s[0] == OPEN_BRACKET
    ensures At(s, 0, OPEN_BRACE) <==> s != [] && s[0] == OPEN_BRACE
  {
  }

  lemma {:induction false} ValueFound(s: seq<byte>, depth: nat) returns (w: Written)
    requires ParseValue(s, depth).Success?
    ensures Reads(s, ParseValue(s, depth), w)
    decreases |s|, 3
  {
    hide *;
    WordOrNot(s);
    var r := ParseValue(s, depth);
    if StartsWord(s) {
      w := WordFound(s, depth);
    } else {
      ValueRule(s, depth);
      if s[0] == OPEN_BRACKET && r == ParseArray(s, depth) {
        w := ArrayFound(s, depth);
      } else if s[0] == OPEN_BRACE && r == ParseObject(s, depth) {
        w := ObjectFound(s, depth);
      } else if s[0] == QUOTE && ParseString(s).Parsed? &&
                r == Success(String(CString(ParseString(s).bytes)), ParseString(s).used) {
        w := TextReads(s, r);
      } else {
        w := FigureReads(s, r);
      }
    }
  }

  /** Whatever the parser accepts is a written value with its white space, and it returns what that means. */
  lemma AcceptedIsWritten(text: seq<byte>) returns (white: seq<byte>, w: Written)
    requires ParseText(text, false).Document?
    ensures AllWhite(white) && GoodWritten(w)
    ensures var r := ParseText(text, false);
      var n := BomLength(text);
      n <= r.end <= |text| && text[n..r.end] == white + WrittenText(w) && r.value == Meaning(w)
  {
    hide *;
    var n, start := DocumentRule(text);
    white := GapFound(text, n);
    w := ValueFound(text[start..], 0);
    var v := ParseValue(text[start..], 0);
    ReadsMeans(text[start..], v, w);
    assert text[start..][..v.used] == text[start..start + v.used];
    assert text[n..start + v.used] == text[n..start] + text[start..start + v.used];
  }

  lemma DocumentRule(text: seq<byte>) returns (n: nat, start: nat)
    requires ParseText(text, false).Document?
    ensures n == BomLength(text) <= |text| && start == n + Skip(text[n..]) <= |text|
    ensures var v := ParseValue(text[start..], 0);
      v.Success? && start + v.used <= |text| && ParseText(text, false) == Document(v.value, start + v.used)
  {
    n := BomLength(text);
    start := n + Skip(text[n..]);
    hide ParseValue, Skip;
  }
}
