/**
 Where the parser reports an error: at the start of what cannot be a value, inside of what is broken further on, or
 where a separator is missing.
 */
module JsonErrors {
  import opened Bytes
  import opened JsonComplete
  import opened JsonNumber
  import opened JsonParse
  import opened JsonSpelling
  import opened JsonString
  import opened JsonSyntax
  import opened JsonValue

  // ---- Lists ----

  lemma ElementsErrorRule(s: seq<byte>, depth: nat)
    requires s != []
    ensures var head, r := NextElement(s, depth), ParseElements(s, depth);
      (head.BadElement? ==> r == NoElements(head.at)) &&
      (head.ElementHead? && !At(s, head.end, COMMA) && !At(s, head.end, CLOSE_BRACKET) ==> r == NoElements(head.end)) &&
      (head.ElementHead? && At(s, head.end, COMMA) ==>
         var more := ParseElements(s[head.end..], depth);
         more.NoElements? ==> r == NoElements(head.end + more.at))
  {
    hide NextElement;
  }

  lemma NextElementError(s: seq<byte>, start: nat, depth: nat)
    requires s != [] && start == 1 + Skip(s[1..]) && start <= |s|
    ensures var v := ParseValue(s[start..], depth);
      v.Failure? ==> NextElement(s, depth) == BadElement(start + v.at)
  {
    hide ParseValue, Skip;
  }

  /** The value behind the front character and the white space is refused. */
  lemma FirstRefused(front: byte, white: seq<byte>, bad: seq<byte>, depth: nat)
    requires AllWhite(white) && bad != [] && !IsWhite(bad[0]) && ParseValue(bad, depth).Failure?
    ensures ParseElements([front] + white + bad, depth) == NoElements(1 + |white| + ParseValue(bad, depth).at)
  {
    hide *;
    var s := [front] + white + bad;
    assert s[1..] == white + bad;
    SkipStops(white, bad);
    assert s[1 + |white|..] == s[1..][|white|..];
    NextElementError(s, 1 + |white|, depth);
    ElementsErrorRule(s, depth);
  }

  /** The error behind some written items, as a function of what stands there. */
  ghost predicate ErrorBehind(r: ElementsOutcome, at: nat, tail: seq<byte>, depth: nat)
    requires tail != []
  {
    if tail[0] == COMMA then
      var more := ParseElements(tail, depth); more.NoElements? ==> r == NoElements(at + more.at)
    else r == NoElements(at)
  }

  lemma ErrorBehindMeans(r: ElementsOutcome, at: nat, tail: seq<byte>, depth: nat)
    requires tail != []
    ensures ErrorBehind(r, at, tail, depth) <==>
      if tail[0] == COMMA then
        var more := ParseElements(tail, depth); more.NoElements? ==> r == NoElements(at + more.at)
      else r == NoElements(at)
  {
  }

  lemma AtMeans(s: seq<byte>, i: nat, b: byte)
    ensures At(s, i, b) <==> i < |s| && s[i] == b
  {
  }

  lemma DelimitedBehind(pad: seq<byte>, tail: seq<byte>)
    requires AllWhite(pad) && Delimited(tail)
    ensures Delimited(pad + tail)
  {
    if pad != [] {
      assert (pad + tail)[0] == pad[0];
    } else {
      assert pad + tail == tail;
    }
  }

  lemma RegroupThree(w: seq<byte>, a: seq<byte>, pad: seq<byte>, tail: seq<byte>, bad: seq<byte>)
    ensures w + (a + pad + tail) + bad == w + a + pad + (tail + bad)
  {
  }

  /** The first of some items is read, whatever stands behind it. */
  lemma FirstItemRead(items: Items, front: byte, white: seq<byte>, behind: seq<byte>, depth: nat)
    requires items.Item? && GoodItems(items) && AllWhite(white)
    requires ElementsDepth(ItemsMeaning(items)) + depth <= NESTING_LIMIT
    requires behind != [] && !IsWhite(behind[0]) && Delimited(behind)
    ensures var text := [front] + white + WrittenText(items.value) + items.after + behind;
      var end := 1 + |white| + |WrittenText(items.value)| + |items.after|;
      NextElement(text, depth).ElementHead? && NextElement(text, depth).end == end &&
      text[end..] == behind && end < |text| && text[end] == behind[0]
  {
    hide *;
    ItemsParts(items);
    MaxMeans(Depth(Meaning(items.value)), ElementsDepth(ItemsMeaning(items.next)));
    var first, pad := WrittenText(items.value), items.after;
    WrittenStarts(items.value);
    DelimitedBehind(pad, behind);
    WrittenBack(items.value, pad + behind, depth);
    ElementText(front, white, first, pad, behind);
    NextElementRule([front] + white + first + pad + behind, |white|, |first|, |pad|, depth);
  }

  lemma ErrorAfterFirst(text: seq<byte>, end: nat, behind: seq<byte>, depth: nat)
    requires text != [] && NextElement(text, depth).ElementHead? && NextElement(text, depth).end == end
    requires end < |text| && text[end..] == behind && behind[0] != CLOSE_BRACKET
    ensures behind != [] && ErrorBehind(ParseElements(text, depth), end, behind, depth)
  {
    hide NextElement, ParseElements;
    ElementsErrorRule(text, depth);
    assert text[end] == behind[0];
  }

  lemma {:induction false} ItemsThenError(items: Items, front: byte, white: seq<byte>, tail: seq<byte>, depth: nat)
    requires items.Item? && GoodItems(items) && AllWhite(white)
    requires ElementsDepth(ItemsMeaning(items)) + depth <= NESTING_LIMIT
    requires tail != [] && !IsWhite(tail[0]) && Delimited(tail) && tail[0] != CLOSE_BRACKET
    ensures ErrorBehind(ParseElements([front] + white + ItemsText(items) + tail, depth),
              1 + |white| + |ItemsText(items)|, tail, depth)
    decreases items
  {
    hide *;
    ItemsParts(items);
    Marks();
    var first, pad := WrittenText(items.value), items.after;
    var others := if items.next == NoItem then [] else [44] + items.next.before + ItemsText(items.next);
    var behind := others + tail;
    var text := [front] + white + first + pad + behind;
    RegroupThree([front] + white, first, pad, others, tail);
    CommaDelimits(items.next, tail);
    FirstItemRead(items, front, white, behind, depth);
    var end := 1 + |white| + |first| + |pad|;
    ErrorAfterFirst(text, end, behind, depth);
    if items.next.Item? {
      MaxMeans(Depth(Meaning(items.value)), ElementsDepth(ItemsMeaning(items.next)));
      ItemsThenError(items.next, COMMA, items.next.before, tail, depth);
      var more := ParseElements(behind, depth);
      var n := 1 + |items.next.before| + |ItemsText(items.next)|;
      ErrorLater(ParseElements(text, depth), end, more, n, behind, tail, depth);
    } else {
      assert behind == tail;
    }
  }

  lemma ErrorLater(r: ElementsOutcome, end: nat, more: ElementsOutcome, n: nat, behind: seq<byte>, tail: seq<byte>,
      depth: nat)
    requires behind != [] && behind[0] == COMMA && tail != [] && more == ParseElements(behind, depth)
    requires ErrorBehind(r, end, behind, depth) && ErrorBehind(more, n, tail, depth)
    ensures ErrorBehind(r, end + n, tail, depth)
  {
    hide ParseElements;
  }

  lemma CommaDelimits(next: Items, tail: seq<byte>)
    requires tail != [] && !IsWhite(tail[0]) && Delimited(tail)
    ensures var others := if next == NoItem then [] else [44] + next.before + ItemsText(next);
      others + tail != [] && !IsWhite((others + tail)[0]) && Delimited(others + tail) &&
      (next.Item? ==> (others + tail)[0] == 44)
  {
    hide ItemsText;
    if next == NoItem {
      assert [] + tail == tail;
    }
  }

  lemma ArrayErrorRule(s: seq<byte>, white: nat, depth: nat)
    requires |s| > 1 + white && s[0] == OPEN_BRACKET && Skip(s[1..]) == white && s[1 + white] != CLOSE_BRACKET
    requires depth < NESTING_LIMIT
    ensures var r := ParseElements(s[white..], depth + 1);
      r.NoElements? ==> ParseArray(s, depth) == Failure(white + r.at)
  {
    hide ParseElements, Skip;
  }

  /** A list whose elements are refused is refused at the same place. */
  lemma ListRefused(white: seq<byte>, body: seq<byte>, depth: nat, at: nat)
    requires AllWhite(white) && body != [] && !IsWhite(body[0]) && body[0] != CLOSE_BRACKET && depth < NESTING_LIMIT
    requires forall front: byte :: ParseElements([front] + body, depth + 1) == NoElements(1 + at)
    ensures ParseValue([91] + white + body, depth) == Failure(1 + |white| + at)
  {
    hide *;
    Marks();
    var s := [91] + white + body;
    BracketText(91, white, body);
    OpensArray(s, depth);
    ArrayErrorRule(s, |white|, depth);
    assert ParseElements([s[|white|]] + body, depth + 1) == NoElements(1 + at);
  }

  /** What stands in front of an element that is refused: nothing, or some written elements and a comma. */
  function ItemsBefore(items: Items): seq<byte> {
    if items == NoItem then [] else ItemsText(items) + [44]
  }

  lemma CommaTail(gap: seq<byte>, bad: seq<byte>)
    ensures [44] + gap + bad != [] && ([44] + gap + bad)[0] == COMMA && !IsWhite(COMMA) && COMMA != CLOSE_BRACKET
    ensures COMMA != CLOSE_BRACE && Delimited([44] + gap + bad)
  {
  }

  /** An element that is refused makes the list be refused at the place where the element is. */
  lemma ElementRefused(white: seq<byte>, items: Items, gap: seq<byte>, bad: seq<byte>, depth: nat)
    requires AllWhite(white) && GoodItems(items) && AllWhite(gap) && bad != [] && !IsWhite(bad[0])
    requires items == NoItem ==> gap == [] && bad[0] != 93
    requires 1 + ElementsDepth(ItemsMeaning(items)) + depth <= NESTING_LIMIT && ParseValue(bad, depth + 1).Failure?
    ensures var body := ItemsBefore(items) + gap + bad;
      ParseValue([91] + white + body, depth) ==
        Failure(1 + |white| + |ItemsBefore(items)| + |gap| + ParseValue(bad, depth + 1).at)
  {
    hide *;
    Marks();
    NoWhite();
    var p := ParseValue(bad, depth + 1).at;
    var body := ItemsBefore(items) + gap + bad;
    BeforeMeans(items, gap, bad);
    var at := |ItemsBefore(items)| + |gap| + p;
    forall front: byte ensures ParseElements([front] + body, depth + 1) == NoElements(1 + at) {
      if items == NoItem {
        FirstRefused(front, [], bad, depth + 1);
        assert [front] + [] + bad == [front] + body;
      } else {
        var tail := [44] + gap + bad;
        CommaTail(gap, bad);
        ItemsThenError(items, front, [], tail, depth + 1);
        ErrorBehindMeans(ParseElements([front] + body, depth + 1), 1 + |ItemsText(items)|, tail, depth + 1);
        FirstRefused(44, gap, bad, depth + 1);
        assert [front] + [] + ItemsText(items) + tail == [front] + body;
      }
    }
    ListRefused(white, body, depth, at);
  }

  lemma BeforeMeans(items: Items, gap: seq<byte>, bad: seq<byte>)
    requires GoodItems(items) && bad != [] && !IsWhite(bad[0])
    requires items == NoItem ==> gap == [] && bad[0] != 93
    ensures items == NoItem ==> ItemsBefore(items) == [] && ItemsBefore(items) + gap + bad == bad
    ensures items.Item? ==>
      ItemsBefore(items) + gap + bad == ItemsText(items) + ([44] + gap + bad) &&
      |ItemsBefore(items)| == |ItemsText(items)| + 1
    ensures var body := ItemsBefore(items) + gap + bad; body != [] && !IsWhite(body[0]) && body[0] != CLOSE_BRACKET
  {
    hide GoodItems, ItemsText;
    if items.Item? {
      ItemsStart(items);
      BeforeComma(ItemsText(items), gap, bad);
    } else {
      assert [] + [] + bad == bad;
    }
  }

  lemma BeforeComma(text: seq<byte>, gap: seq<byte>, bad: seq<byte>)
    requires text != []
    ensures text + [44] + gap + bad == text + ([44] + gap + bad) && (text + [44] + gap + bad)[0] == text[0]
  {
  }

  /** Behind an element, anything but a comma or the closing bracket is an error, right there. */
  lemma ListNotEnded(items: Items, tail: seq<byte>, depth: nat)
    requires items.Item? && GoodItems(items) && 1 + ElementsDepth(ItemsMeaning(items)) + depth <= NESTING_LIMIT
    requires tail != [] && !IsWhite(tail[0]) && Delimited(tail) && tail[0] != 44 && tail[0] != 93
    ensures ParseValue([91] + items.before + (ItemsText(items) + tail), depth) ==
      Failure(1 + |items.before| + |ItemsText(items)|)
  {
    hide *;
    Marks();
    NoWhite();
    ItemsParts(items);
    ItemsStart(items);
    var body := ItemsText(items) + tail;
    forall front: byte ensures ParseElements([front] + body, depth + 1) == NoElements(1 + |ItemsText(items)|) {
      ItemsThenError(items, front, [], tail, depth + 1);
      ErrorBehindMeans(ParseElements([front] + [] + ItemsText(items) + tail, depth + 1), 1 + |ItemsText(items)|, tail,
        depth + 1);
      assert [front] + [] + ItemsText(items) + tail == [front] + body;
    }
    ListRefused(items.before, body, depth, |ItemsText(items)|);
  }

  // ---- Records ----

  lemma MembersErrorRule(s: seq<byte>, depth: nat)
    requires s != []
    ensures var head, r := NextMember(s, depth), ParseMembers(s, depth);
      (head.BadMember? ==> r == NoMembers(head.at)) &&
      (head.MemberHead? && !At(s, head.end, COMMA) && !At(s, head.end, CLOSE_BRACE) ==> r == NoMembers(head.end)) &&
      (head.MemberHead? && At(s, head.end, COMMA) ==>
         var more := ParseMembers(s[head.end..], depth);
         more.NoMembers? ==> r == NoMembers(head.end + more.at))
  {
    hide NextMember;
  }

  /** Behind any front character and white space, `bad` is refused at position `p` of it. */
  ghost predicate BadMemberAt(bad: seq<byte>, p: nat, depth: nat) {
    forall front: byte, white: seq<byte> | AllWhite(white) ::
      ParseMembers([front] + white + bad, depth) == NoMembers(1 + |white| + p)
  }

  lemma BadMemberFrom(bad: seq<byte>, p: nat, depth: nat)
    requires forall front: byte, white: seq<byte> | AllWhite(white) ::
      ParseMembers([front] + white + bad, depth) == NoMembers(1 + |white| + p)
    ensures BadMemberAt(bad, p, depth)
  {
    hide AllWhite, ParseMembers;
  }

  lemma NextNameError(s: seq<byte>, start: nat)
    requires |s| > 1 && start == 1 + Skip(s[1..]) && start < |s|
    ensures var name := ParseString(s[start..]);
      if name.Failed? then NextName(s) == BadName(start + name.at)
      else
        start + name.used <= |s| &&
        var colon := start + name.used + Skip(s[start + name.used..]);
        !At(s, colon, COLON) ==> NextName(s) == BadName(colon)
  {
    hide ParseString, Skip, CString;
  }

  lemma NextMemberError(s: seq<byte>, depth: nat)
    requires s != []
    ensures NextName(s).BadName? ==> NextMember(s, depth) == BadMember(NextName(s).at)
  {
    hide ParseValue, Skip, NextName;
  }

  /** Where the name starts behind the front character and the white space. */
  lemma NamePlace(front: byte, white: seq<byte>, bad: seq<byte>)
    requires AllWhite(white) && bad != [] && !IsWhite(bad[0])
    ensures var s := [front] + white + bad;
      |s| > 1 && Skip(s[1..]) == |white| && s[1 + |white|..] == bad
  {
    var s := [front] + white + bad;
    assert s[1..] == white + bad;
    SkipStops(white, bad);
  }

  /** A name that is refused. */
  lemma NameRefused(bad: seq<byte>, depth: nat)
    requires bad != [] && !IsWhite(bad[0]) && ParseString(bad).Failed?
    ensures BadMemberAt(bad, ParseString(bad).at, depth)
  {
    hide *;
    forall front: byte, white: seq<byte> | AllWhite(white)
      ensures ParseMembers([front] + white + bad, depth) == NoMembers(1 + |white| + ParseString(bad).at)
    {
      var s := [front] + white + bad;
      NamePlace(front, white, bad);
      NextNameError(s, 1 + |white|);
      NextMemberError(s, depth);
      MembersErrorRule(s, depth);
    }
    BadMemberFrom(bad, ParseString(bad).at, depth);
  }

  lemma SliceStarts(s: seq<byte>, i: nat, tail: seq<byte>)
    requires i <= |s| && s[i..] == tail && tail != []
    ensures i < |s| && s[i] == tail[0]
  {
  }

  lemma NameAndGap(s: seq<byte>, front: byte, white: seq<byte>, name: seq<Character>, middle: seq<byte>,
      tail: seq<byte>)
    requires AllWhite(white) && AllWhite(middle) && GoodText(name) && tail != [] && !IsWhite(tail[0])
    requires s == [front] + white + StringText(name) + middle + tail
    ensures var start := 1 + |white|;
      |s| > 1 && Skip(s[1..]) == |white| && start < |s| &&
      ParseString(s[start..]) == Parsed(BytesOf(name), |StringText(name)|) &&
      start + |StringText(name)| <= |s| && Skip(s[start + |StringText(name)|..]) == |middle| &&
      start + |StringText(name)| + |middle| < |s| &&
      s[start + |StringText(name)| + |middle|..] == tail && s[start + |StringText(name)| + |middle|] == tail[0]
  {
    hide *;
    Marks();
    var key := StringText(name);
    StringTextIsRead(name, middle + tail);
    NameText(front, white, key, middle, tail);
    SkipStops(white, key + (middle + tail));
    SkipStops(middle, tail);
    SliceStarts(s, 1 + |white| + |key| + |middle|, tail);
  }

  lemma RegroupName(a: seq<byte>, k: seq<byte>, m: seq<byte>, tail: seq<byte>)
    ensures a + (k + m + tail) == a + k + m + tail
  {
  }

  /** A name without a colon behind it. */
  lemma ColonMissing(name: seq<Character>, middle: seq<byte>, tail: seq<byte>, depth: nat)
    requires GoodText(name) && AllWhite(middle) && tail != [] && !IsWhite(tail[0]) && tail[0] != 58
    ensures BadMemberAt(StringText(name) + middle + tail, |StringText(name)| + |middle|, depth)
  {
    hide *;
    var bad := StringText(name) + middle + tail;
    var p := |StringText(name)| + |middle|;
    forall front: byte, white: seq<byte> | AllWhite(white)
      ensures ParseMembers([front] + white + bad, depth) == NoMembers(1 + |white| + p)
    {
      Marks();
      var s := [front] + white + bad;
      RegroupName([front] + white, StringText(name), middle, tail);
      NameAndGap(s, front, white, name, middle, tail);
      NextNameError(s, 1 + |white|);
      AtMeans(s, 1 + |white| + p, COLON);
      NextMemberError(s, depth);
      MembersErrorRule(s, depth);
    }
    BadMemberFrom(bad, p, depth);
  }

  lemma MemberValueError(s: seq<byte>, start: nat, key: seq<byte>, used: nat, middle: nat, gap: nat, depth: nat)
    requires |s| > 1 && start == 1 + Skip(s[1..]) && start < |s| && ParseString(s[start..]) == Parsed(key, used)
    requires start + used <= |s| && middle == Skip(s[start + used..])
    requires var colon := start + used + middle;
      colon < |s| && s[colon] == COLON && gap == Skip(s[colon + 1..]) && colon + 1 + gap <= |s|
    ensures var at := start + used + middle + 1 + gap;
      ParseValue(s[at..], depth).Failure? ==>
      NextMember(s, depth) == BadMember(at + ParseValue(s[at..], depth).at)
  {
    hide ParseValue, Skip, ParseString, CString;
  }

  lemma MemberValueErrorIn(s: seq<byte>, start: nat, key: seq<byte>, used: nat, middle: nat, gap: seq<byte>,
      bad: seq<byte>, depth: nat)
    requires |s| > 1 && start == 1 + Skip(s[1..]) && start < |s| && ParseString(s[start..]) == Parsed(key, used)
    requires start + used <= |s| && middle == Skip(s[start + used..])
    requires start + used + middle < |s| && s[start + used + middle..] == [58] + gap + bad
    requires AllWhite(gap) && bad != [] && !IsWhite(bad[0]) && ParseValue(bad, depth).Failure?
    ensures ParseMembers(s, depth) == NoMembers(start + used + middle + 1 + |gap| + ParseValue(bad, depth).at)
  {
    hide *;
    Marks();
    var colon := start + used + middle;
    GapBehindColon(s, colon, gap, bad);
    MemberValueError(s, start, key, used, middle, |gap|, depth);
    MembersErrorRule(s, depth);
  }

  lemma MemberValueErrorAt(s: seq<byte>, front: byte, white: seq<byte>, name: seq<Character>, middle: seq<byte>,
      gap: seq<byte>, bad: seq<byte>, depth: nat)
    requires AllWhite(white) && GoodText(name) && AllWhite(middle) && AllWhite(gap) && bad != [] && !IsWhite(bad[0])
    requires ParseValue(bad, depth).Failure?
    requires s == [front] + white + StringText(name) + middle + ([58] + gap + bad)
    ensures ParseMembers(s, depth) ==
      NoMembers(1 + |white| + |StringText(name)| + |middle| + 1 + |gap| + ParseValue(bad, depth).at)
  {
    hide *;
    ColonFirst(gap, bad);
    NameAndGap(s, front, white, name, middle, [58] + gap + bad);
    MemberValueErrorIn(s, 1 + |white|, BytesOf(name), |StringText(name)|, |middle|, gap, bad, depth);
  }

  lemma ColonFirst(gap: seq<byte>, bad: seq<byte>)
    ensures var tail := [58] + gap + bad; tail != [] && tail[0] == 58 && !IsWhite(58)
  {
  }

  /** A value that is refused, behind a name and its colon. */
  lemma MemberValueRefused(name: seq<Character>, middle: seq<byte>, gap: seq<byte>, bad: seq<byte>, depth: nat)
    requires GoodText(name) && AllWhite(middle) && AllWhite(gap) && bad != [] && !IsWhite(bad[0])
    requires ParseValue(bad, depth).Failure?
    ensures BadMemberAt(StringText(name) + middle + ([58] + gap + bad),
              |StringText(name)| + |middle| + 1 + |gap| + ParseValue(bad, depth).at, depth)
  {
    hide *;
    var all := StringText(name) + middle + ([58] + gap + bad);
    var p := |StringText(name)| + |middle| + 1 + |gap| + ParseValue(bad, depth).at;
    forall front: byte, white: seq<byte> | AllWhite(white)
      ensures ParseMembers([front] + white + all, depth) == NoMembers(1 + |white| + p)
    {
      RegroupName([front] + white, StringText(name), middle, [58] + gap + bad);
      MemberValueErrorAt([front] + white + all, front, white, name, middle, gap, bad, depth);
    }
    BadMemberFrom(all, p, depth);
  }

  lemma GapBehindColon(s: seq<byte>, colon: nat, gap: seq<byte>, bad: seq<byte>)
    requires colon < |s| && s[colon..] == [58] + gap + bad && AllWhite(gap) && bad != [] && !IsWhite(bad[0])
    ensures s[colon] == 58 && colon + 1 + |gap| <= |s| && Skip(s[colon + 1..]) == |gap| && s[colon + 1 + |gap|..] == bad
  {
    assert s[colon] == s[colon..][0];
    assert s[colon + 1..] == s[colon..][1..] == gap + bad;
    SkipStops(gap, bad);
    assert s[colon + 1 + |gap|..] == s[colon + 1..][|gap|..];
  }

  ghost predicate MemberErrorBehind(r: MembersOutcome, at: nat, tail: seq<byte>, depth: nat)
    requires tail != []
  {
    if tail[0] == COMMA then
      var more := ParseMembers(tail, depth); more.NoMembers? ==> r == NoMembers(at + more.at)
    else r == NoMembers(at)
  }

  lemma MemberErrorBehindMeans(r: MembersOutcome, at: nat, tail: seq<byte>, depth: nat)
    requires tail != []
    ensures MemberErrorBehind(r, at, tail, depth) <==>
      if tail[0] == COMMA then
        var more := ParseMembers(tail, depth); more.NoMembers? ==> r == NoMembers(at + more.at)
      else r == NoMembers(at)
  {
  }

  lemma MemberErrorAfterFirst(text: seq<byte>, end: nat, behind: seq<byte>, depth: nat)
    requires text != [] && NextMember(text, depth).MemberHead? && NextMember(text, depth).end == end
    requires end < |text| && text[end..] == behind && behind[0] != CLOSE_BRACE
    ensures behind != [] && MemberErrorBehind(ParseMembers(text, depth), end, behind, depth)
  {
    hide NextMember, ParseMembers;
    MembersErrorRule(text, depth);
    assert text[end] == behind[0];
  }

  lemma MemberErrorLater(r: MembersOutcome, end: nat, more: MembersOutcome, n: nat, behind: seq<byte>, tail: seq<byte>,
      depth: nat)
    requires behind != [] && behind[0] == COMMA && tail != [] && more == ParseMembers(behind, depth)
    requires MemberErrorBehind(r, end, behind, depth) && MemberErrorBehind(more, n, tail, depth)
    ensures MemberErrorBehind(r, end + n, tail, depth)
  {
    hide ParseMembers;
  }

  lemma RegroupField(w: seq<byte>, k: seq<byte>, m: seq<byte>, c: seq<byte>, g: seq<byte>, a: seq<byte>, pad: seq<byte>,
      tail: seq<byte>, bad: seq<byte>)
    ensures w + (k + m + c + g + a + pad + tail) + bad == w + k + m + c + g + a + pad + (tail + bad)
  {
  }

  lemma CommaDelimitsFields(next: Fields, tail: seq<byte>)
    requires tail != [] && !IsWhite(tail[0]) && Delimited(tail)
    ensures var others := if next == NoField then [] else [44] + next.before + FieldsText(next);
      others + tail != [] && !IsWhite((others + tail)[0]) && Delimited(others + tail) &&
      (next.Field? ==> (others + tail)[0] == 44)
  {
    hide FieldsText;
    if next == NoField {
      assert [] + tail == tail;
    }
  }

  /** The first of some members is read, and the error stands behind it. */
  lemma FirstFieldThenError(f: Fields, front: byte, white: seq<byte>, behind: seq<byte>, depth: nat)
    requires f.Field? && GoodFields(f) && AllWhite(white) && MembersDepth(FieldsMeaning(f)) + depth <= NESTING_LIMIT
    requires behind != [] && !IsWhite(behind[0]) && Delimited(behind) && behind[0] != CLOSE_BRACE
    ensures var text :=
        [front] + white + StringText(f.name) + f.middle + [58] + f.gap + WrittenText(f.value) + f.after + behind;
      MemberErrorBehind(ParseMembers(text, depth), |text| - |behind|, behind, depth)
  {
    hide *;
    FieldsParts(f);
    MaxMeans(Depth(Meaning(f.value)), MembersDepth(FieldsMeaning(f.next)));
    DelimitedBehind(f.after, behind);
    WrittenBack(f.value, f.after + behind, depth);
    FirstFieldBack(f, front, white, behind, depth);
    var name, value := StringText(f.name), WrittenText(f.value);
    var text := [front] + white + name + f.middle + [58] + f.gap + value + f.after + behind;
    MemberErrorAfterFirst(text, |text| - |behind|, behind, depth);
  }

  lemma {:induction false} FieldsThenError(fields: Fields, front: byte, white: seq<byte>, tail: seq<byte>, depth: nat)
    requires fields.Field? && GoodFields(fields) && AllWhite(white)
    requires MembersDepth(FieldsMeaning(fields)) + depth <= NESTING_LIMIT
    requires tail != [] && !IsWhite(tail[0]) && Delimited(tail) && tail[0] != CLOSE_BRACE
    ensures MemberErrorBehind(ParseMembers([front] + white + FieldsText(fields) + tail, depth),
              1 + |white| + |FieldsText(fields)|, tail, depth)
    decreases fields
  {
    hide *;
    FieldsParts(fields);
    Marks();
    var key, first, pad := StringText(fields.name), WrittenText(fields.value), fields.after;
    var others := if fields.next == NoField then [] else [44] + fields.next.before + FieldsText(fields.next);
    var behind := others + tail;
    RegroupField([front] + white, key, fields.middle, [58], fields.gap, first, pad, others, tail);
    CommaDelimitsFields(fields.next, tail);
    FirstFieldThenError(fields, front, white, behind, depth);
    if fields.next.Field? {
      MaxMeans(Depth(Meaning(fields.value)), MembersDepth(FieldsMeaning(fields.next)));
      FieldsThenError(fields.next, COMMA, fields.next.before, tail, depth);
      var text := [front] + white + FieldsText(fields) + tail;
      var n := 1 + |fields.next.before| + |FieldsText(fields.next)|;
      var r, more := ParseMembers(text, depth), ParseMembers(behind, depth);
      MemberErrorLater(r, |text| - |behind|, more, n, behind, tail, depth);
    } else {
      assert behind == tail;
    }
  }

  lemma ObjectErrorRule(s: seq<byte>, white: nat, depth: nat)
    requires |s| > 1 + white && s[0] == OPEN_BRACE && Skip(s[1..]) == white && s[1 + white] != CLOSE_BRACE
    requires depth < NESTING_LIMIT
    ensures var r := ParseMembers(s[white..], depth + 1);
      r.NoMembers? ==> ParseObject(s, depth) == Failure(white + r.at)
  {
    hide ParseMembers, Skip;
  }

  /** A record whose members are refused is refused at the same place. */
  lemma RecordRefused(white: seq<byte>, body: seq<byte>, depth: nat, at: nat)
    requires AllWhite(white) && body != [] && !IsWhite(body[0]) && body[0] != CLOSE_BRACE && depth < NESTING_LIMIT
    requires forall front: byte :: ParseMembers([front] + body, depth + 1) == NoMembers(1 + at)
    ensures ParseValue([123] + white + body, depth) == Failure(1 + |white| + at)
  {
    hide *;
    Marks();
    var s := [123] + white + body;
    BracketText(123, white, body);
    OpensObject(s, depth);
    ObjectErrorRule(s, |white|, depth);
    assert ParseMembers([s[|white|]] + body, depth + 1) == NoMembers(1 + at);
  }

  function FieldsBefore(fields: Fields): seq<byte> {
    if fields == NoField then [] else FieldsText(fields) + [44]
  }

  lemma FieldsBeforeMeans(fields: Fields, gap: seq<byte>, bad: seq<byte>)
    requires GoodFields(fields) && bad != [] && !IsWhite(bad[0])
    requires fields == NoField ==> gap == [] && bad[0] != 125
    ensures fields == NoField ==> FieldsBefore(fields) == [] && FieldsBefore(fields) + gap + bad == bad
    ensures fields.Field? ==>
      FieldsBefore(fields) + gap + bad == FieldsText(fields) + ([44] + gap + bad) &&
      |FieldsBefore(fields)| == |FieldsText(fields)| + 1
    ensures var body := FieldsBefore(fields) + gap + bad; body != [] && !IsWhite(body[0]) && body[0] != CLOSE_BRACE
  {
    hide GoodFields, FieldsText;
    if fields.Field? {
      FieldsStart(fields);
      BeforeComma(FieldsText(fields), gap, bad);
    } else {
      assert [] + [] + bad == bad;
    }
  }

  lemma BadMemberMeans(bad: seq<byte>, p: nat, depth: nat, front: byte, white: seq<byte>)
    requires BadMemberAt(bad, p, depth) && AllWhite(white)
    ensures ParseMembers([front] + white + bad, depth) == NoMembers(1 + |white| + p)
  {
    hide AllWhite, ParseMembers;
  }

  /** A member that is refused makes the record be refused at the place where the member is. */
  lemma MemberRefused(white: seq<byte>, fields: Fields, gap: seq<byte>, bad: seq<byte>, p: nat, depth: nat)
    requires AllWhite(white) && GoodFields(fields) && AllWhite(gap) && bad != [] && !IsWhite(bad[0])
    requires fields == NoField ==> gap == [] && bad[0] != 125
    requires 1 + MembersDepth(FieldsMeaning(fields)) + depth <= NESTING_LIMIT && BadMemberAt(bad, p, depth + 1)
    ensures var body := FieldsBefore(fields) + gap + bad;
      ParseValue([123] + white + body, depth) == Failure(1 + |white| + |FieldsBefore(fields)| + |gap| + p)
  {
    hide *;
    Marks();
    NoWhite();
    var body := FieldsBefore(fields) + gap + bad;
    FieldsBeforeMeans(fields, gap, bad);
    var at := |FieldsBefore(fields)| + |gap| + p;
    forall front: byte ensures ParseMembers([front] + body, depth + 1) == NoMembers(1 + at) {
      if fields == NoField {
        BadMemberMeans(bad, p, depth + 1, front, []);
        assert [front] + [] + bad == [front] + body;
      } else {
        var tail := [44] + gap + bad;
        CommaTail(gap, bad);
        FieldsThenError(fields, front, [], tail, depth + 1);
        MemberErrorBehindMeans(ParseMembers([front] + body, depth + 1), 1 + |FieldsText(fields)|, tail, depth + 1);
        BadMemberMeans(bad, p, depth + 1, 44, gap);
        assert [front] + [] + FieldsText(fields) + tail == [front] + body;
      }
    }
    RecordRefused(white, body, depth, at);
  }

  /** Behind a member, anything but a comma or the closing brace is an error, right there. */
  lemma RecordNotEnded(fields: Fields, tail: seq<byte>, depth: nat)
    requires fields.Field? && GoodFields(fields) && 1 + MembersDepth(FieldsMeaning(fields)) + depth <= NESTING_LIMIT
    requires tail != [] && !IsWhite(tail[0]) && Delimited(tail) && tail[0] != 44 && tail[0] != 125
    ensures ParseValue([123] + fields.before + (FieldsText(fields) + tail), depth) ==
      Failure(1 + |fields.before| + |FieldsText(fields)|)
  {
    hide *;
    Marks();
    NoWhite();
    FieldsParts(fields);
    FieldsStart(fields);
    var body := FieldsText(fields) + tail;
    forall front: byte ensures ParseMembers([front] + body, depth + 1) == NoMembers(1 + |FieldsText(fields)|) {
      FieldsThenError(fields, front, [], tail, depth + 1);
      MemberErrorBehindMeans(ParseMembers([front] + [] + FieldsText(fields) + tail, depth + 1),
        1 + |FieldsText(fields)|, tail, depth + 1);
      assert [front] + [] + FieldsText(fields) + tail == [front] + body;
    }
    RecordRefused(fields.before, body, depth, |FieldsText(fields)|);
  }

  // ---- Values ----

  /** What is refused at its first character: what starts no value, no numeral, or a list nested too deeply. */
  lemma RefusedAtOnce(s: seq<byte>, depth: nat)
    requires !(WordText(Null) <= s) && !(WordText(False) <= s) && !(WordText(True) <= s)
    requires s == [] || s[0] != 34
    requires s == [] || ((s[0] == MINUS || IsDigit(s[0])) ==> JsonNumber.ParseNumber(s).used == 0)
    requires s == [] || ((s[0] == 91 || s[0] == 123) ==> depth >= NESTING_LIMIT)
    ensures ParseValue(s, depth) == Failure(0)
  {
    hide JsonNumber.ParseNumber, ParseElements, ParseMembers, Skip;
  }

  /** A string that is refused. */
  lemma TextRefused(s: seq<byte>, depth: nat)
    requires s != [] && s[0] == 34 && ParseString(s).Failed?
    ensures ParseValue(s, depth) == Failure(ParseString(s).at)
  {
    hide ParseString;
  }
}
