/** The parser as it runs: a cursor over the input and a nesting counter, changed in place. */
module JsonParser {
  import opened Bytes
  import opened Utf16
  import opened JsonNumber
  import opened JsonString
  import opened JsonValue
  import opened JsonParse

  // ---- Facts about suffixes and sizes ----

  lemma Suffix(s: seq<byte>, a: nat, b: nat)
    requires a + b <= |s|
    ensures s[a..][b..] == s[a + b..]
  {
  }

  /** Counting on after a part of the text. */
  lemma {:induction false} RoomAppend(t: seq<byte>, u: seq<byte>, inside: bool)
    ensures Room(t + u, inside) == Room(t, inside) + Room(u, Inside(t, |t|, inside))
    ensures Inside(t + u, |t| + |u|, inside) == Inside(u, |u|, Inside(t, |t|, inside))
  {
    if t == [] {
      assert t + u == u;
    } else {
      assert (t + u)[1..] == t[1..] + u;
      RoomAppend(t[1..], u, !inside && t[0] == BACKSLASH);
    }
  }

  /** One more plain character, or one more escape of two characters. */
  lemma RoomPlain(t: seq<byte>, b: byte)
    requires !Inside(t, |t|, false) && b != BACKSLASH
    ensures Room(t + [b], false) == Room(t, false) + 1 && !Inside(t + [b], |t| + 1, false)
  {
    RoomAppend(t, [b], false);
    assert [b][1..] == [];
  }

  lemma RoomEscape(t: seq<byte>, b: byte)
    requires !Inside(t, |t|, false)
    ensures Room(t + [BACKSLASH, b], false) == Room(t, false) + 1 && !Inside(t + [BACKSLASH, b], |t| + 2, false)
  {
    RoomAppend(t, [BACKSLASH, b], false);
    assert [BACKSLASH, b][1..] == [b] && [b][1..] == [];
  }

  lemma ClosingNext(content: seq<byte>, o: nat, i: nat)
    requires o <= i <= |content|
    ensures ClosingQuote(content[o..], i - o) ==
      if i == |content| then None
      else if content[i] == QUOTE then Some(i - o)
      else if content[i] != BACKSLASH then ClosingQuote(content[o..], i + 1 - o)
      else if i + 1 >= |content| then None
      else ClosingQuote(content[o..], i + 2 - o)
  {
  }

  lemma AfterTwice(a: seq<byte>, m: nat, b: seq<byte>, n: nat, r: Text)
    ensures After(a, m, After(b, n, r)) == After(a + b, m + n, r)
  {
    if r.Text? {
      assert a + (b + r.bytes) == a + b + r.bytes;
    }
  }

  lemma {:induction false} CStringEnds(s: seq<byte>, n: nat)
    requires n < |s| && s[n] == 0
    ensures CString(s) == CString(s[..n])
  {
    if n > 0 {
      assert s[..n][1..] == s[1..][..n - 1];
      CStringEnds(s[1..], n - 1);
    }
  }

  lemma StringNotOpened(s: seq<byte>)
    requires s != [] && (s[0] != QUOTE || ClosingQuote(s, 1).None?)
    ensures JsonString.ParseString(s) == Failed(1)
  {
  }

  lemma StringClosed(s: seq<byte>, end: nat)
    requires 1 <= end < |s| && s[0] == QUOTE && ClosingQuote(s, 1) == Some(end)
    ensures JsonString.ParseString(s) ==
      match Unescape(s[1..end]) case Text(bytes) => Parsed(bytes, end + 1) case Stuck(at) => Failed(1 + at)
  {
    hide Unescape, ClosingQuote;
  }

  function Further(values: seq<Json>, k: nat, r: ElementsOutcome): ElementsOutcome {
    match r
    case SomeElements(elements, end) => SomeElements(Chain(values, elements), k + end)
    case NoElements(at) => NoElements(k + at)
  }

  function FurtherMembers(pairs: seq<Pair>, k: nat, r: MembersOutcome): MembersOutcome {
    match r
    case SomeMembers(members, end) => SomeMembers(ChainMembers(pairs, members), k + end)
    case NoMembers(at) => NoMembers(k + at)
  }

  /**
   The second pass has consumed `q` characters of `t` and written `written`, and `rest` is left; `inside` says where
   the first pass stood at that place.
   */
  ghost predicate HalfWay(t: seq<byte>, rest: seq<byte>, q: nat, written: seq<byte>, inside: bool) {
    Unescape(t) == After(written, q, Unescape(rest)) &&
    |written| + Room(rest, inside) <= Room(t, false) && !Inside(rest, |rest|, inside)
  }

  lemma HalfWayMeans(t: seq<byte>, rest: seq<byte>, q: nat, written: seq<byte>, inside: bool)
    ensures HalfWay(t, rest, q, written, inside) <==>
      Unescape(t) == After(written, q, Unescape(rest)) &&
      |written| + Room(rest, inside) <= Room(t, false) && !Inside(rest, |rest|, inside)
  {
  }

  lemma HalfWayStart(t: seq<byte>)
    requires !Inside(t, |t|, false)
    ensures HalfWay(t, t, 0, [], false)
  {
    AfterNothing(Unescape(t));
  }

  /** One round, with the state of the first pass behind it. */
  lemma OneRound(t: seq<byte>, inside: bool) returns (inside': bool)
    requires t != [] && FirstPiece(t).Piece? && !Inside(t, |t|, inside)
    ensures var p := FirstPiece(t);
      var rest := Behind(t, p.used);
      Unescape(t) == After(p.bytes, p.used, Unescape(rest)) &&
      Room(t, inside) >= |p.bytes| + Room(rest, inside') && !Inside(rest, |rest|, inside')
  {
    PieceFits(t, inside);
    var p := FirstPiece(t);
    hide FirstPiece, Fits, Room, Inside;
    if p.used <= |t| {
      FitsMeans(t, |p.bytes|, p.used, inside);
      inside' := Inside(t, p.used, inside);
    } else {
      inside' := false;
    }
    RoomOfNothing(inside');
  }

  lemma Advance(content: seq<byte>, p: nat, end: nat, used: nat)
    requires p <= end <= |content|
    ensures Behind(content[p..end], used) == if p + used <= end then content[p + used..end] else []
  {
  }

  lemma RoomOfNothing(inside: bool)
    ensures Room([], inside) == 0 && !Inside([], 0, false)
  {
  }

  lemma HalfWayStep(t: seq<byte>, rest: seq<byte>, q: nat, written: seq<byte>, inside: bool) returns (inside': bool)
    requires HalfWay(t, rest, q, written, inside) && rest != [] && FirstPiece(rest).Piece?
    ensures var p := FirstPiece(rest);
      HalfWay(t, Behind(rest, p.used), q + p.used, written + p.bytes, inside') &&
      |written| + |p.bytes| <= Room(t, false)
  {
    hide *;
    HalfWayMeans(t, rest, q, written, inside);
    inside' := OneRound(rest, inside);
    var p := FirstPiece(rest);
    AfterTwice(written, q, p.bytes, p.used, Unescape(Behind(rest, p.used)));
    HalfWayMeans(t, Behind(rest, p.used), q + p.used, written + p.bytes, inside');
  }

  lemma HalfWayStuck(t: seq<byte>, rest: seq<byte>, q: nat, written: seq<byte>, inside: bool)
    requires HalfWay(t, rest, q, written, inside) && rest != [] && FirstPiece(rest).NoPiece?
    ensures Unescape(t) == Stuck(q)
  {
    hide FirstPiece, Room, Inside;
  }

  lemma HalfWayNext(t: seq<byte>, rest: seq<byte>, q: nat, written: seq<byte>, inside: bool) returns (inside': bool)
    requires HalfWay(t, rest, q, written, inside) && rest != []
    ensures var p := FirstPiece(rest);
      if p.Piece? then
        HalfWay(t, Behind(rest, p.used), q + p.used, written + p.bytes, inside') &&
        |written| + |p.bytes| <= Room(t, false)
      else Unescape(t) == Stuck(q)
  {
    hide *;
    inside' := inside;
    if FirstPiece(rest).Piece? {
      inside' := HalfWayStep(t, rest, q, written, inside);
    } else {
      HalfWayStuck(t, rest, q, written, inside);
    }
  }

  lemma HalfWayDone(t: seq<byte>, q: nat, written: seq<byte>, inside: bool)
    requires HalfWay(t, [], q, written, inside)
    ensures Unescape(t) == Text(written)
  {
    assert written + [] == written;
    hide Room, Inside;
  }

  // ---- One round of the loops over children ----

  lemma FurtherNothing(r: ElementsOutcome, m: MembersOutcome)
    ensures Further([], 0, r) == r && FurtherMembers([], 0, m) == m
  {
  }

  lemma FurtherElement(s: seq<byte>, depth: nat, values: seq<Json>, k: nat)
    requires s != []
    ensures var head, r := NextElement(s, depth), Further(values, k, ParseElements(s, depth));
      if head.BadElement? then r == NoElements(k + head.at)
      else if head.end < |s| && s[head.end] == COMMA then
        r == Further(values + [head.value], k + head.end, ParseElements(s[head.end..], depth))
      else if head.end < |s| && s[head.end] == CLOSE_BRACKET then
        r == SomeElements(Chain(values + [head.value], NoElement), k + head.end)
      else r == NoElements(k + head.end)
  {
    hide NextElement, Chain;
    var head := NextElement(s, depth);
    if head.ElementHead? {
      ChainOne(values, head.value, NoElement);
      if At(s, head.end, COMMA) {
        var more := ParseElements(s[head.end..], depth);
        if more.SomeElements? {
          ChainOne(values, head.value, more.elements);
        }
      }
    }
  }

  lemma FurtherMember(s: seq<byte>, depth: nat, pairs: seq<Pair>, k: nat)
    requires s != []
    ensures var head, r := NextMember(s, depth), FurtherMembers(pairs, k, ParseMembers(s, depth));
      if head.BadMember? then r == NoMembers(k + head.at)
      else
        var pairs' := pairs + [Pair(head.key, head.value)];
        if head.end < |s| && s[head.end] == COMMA then
          r == FurtherMembers(pairs', k + head.end, ParseMembers(s[head.end..], depth))
        else if head.end < |s| && s[head.end] == CLOSE_BRACE then
          r == SomeMembers(ChainMembers(pairs', NoMember), k + head.end)
        else r == NoMembers(k + head.end)
  {
    hide NextMember, ChainMembers;
    var head := NextMember(s, depth);
    if head.MemberHead? {
      var p := Pair(head.key, head.value);
      ChainMembersOne(pairs, p, NoMember);
      if At(s, head.end, COMMA) {
        var more := ParseMembers(s[head.end..], depth);
        if more.SomeMembers? {
          ChainMembersOne(pairs, p, more.members);
        }
      }
    }
  }

  /** The loop that began at `from` has read `values` and stands at `at`, in front of the next element. */
  ghost predicate ElementsSoFar(content: seq<byte>, from: nat, at: nat, depth: nat, values: seq<Json>) {
    from <= at < |content| &&
    ParseElements(content[from..], depth) == Further(values, at - from, ParseElements(content[at..], depth))
  }

  lemma ElementsSoFarMeans(content: seq<byte>, from: nat, at: nat, depth: nat, values: seq<Json>)
    ensures ElementsSoFar(content, from, at, depth, values) <==>
      from <= at < |content| &&
      ParseElements(content[from..], depth) == Further(values, at - from, ParseElements(content[at..], depth))
  {
  }

  lemma ElementsBegin(content: seq<byte>, from: nat, depth: nat)
    requires from < |content|
    ensures ElementsSoFar(content, from, from, depth, [])
  {
    FurtherNothing(ParseElements(content[from..], depth), NoMembers(0));
  }

  lemma ElementsRound(content: seq<byte>, from: nat, at: nat, depth: nat, values: seq<Json>)
    requires from <= at < |content| && ElementsSoFar(content, from, at, depth, values)
    ensures var head, r := NextElement(content[at..], depth), ParseElements(content[from..], depth);
      if head.BadElement? then r == NoElements(at + head.at - from)
      else
        var next, values' := at + head.end, values + [head.value];
        if next < |content| && content[next] == COMMA then ElementsSoFar(content, from, next, depth, values')
        else if next < |content| && content[next] == CLOSE_BRACKET then
          r == SomeElements(Chain(values', NoElement), next - from)
        else r == NoElements(next - from)
  {
    hide *;
    var s := content[at..];
    ElementsSoFarMeans(content, from, at, depth, values);
    FurtherElement(s, depth, values, at - from);
    var head := NextElement(s, depth);
    if head.ElementHead? && at + head.end < |content| {
      Suffix(content, at, head.end);
      assert s[head.end] == content[at + head.end];
      ElementsSoFarMeans(content, from, at + head.end, depth, values + [head.value]);
    }
  }

  ghost predicate MembersSoFar(content: seq<byte>, from: nat, at: nat, depth: nat, pairs: seq<Pair>) {
    from <= at < |content| &&
    ParseMembers(content[from..], depth) == FurtherMembers(pairs, at - from, ParseMembers(content[at..], depth))
  }

  lemma MembersSoFarMeans(content: seq<byte>, from: nat, at: nat, depth: nat, pairs: seq<Pair>)
    ensures MembersSoFar(content, from, at, depth, pairs) <==>
      from <= at < |content| &&
      ParseMembers(content[from..], depth) == FurtherMembers(pairs, at - from, ParseMembers(content[at..], depth))
  {
  }

  lemma MembersBegin(content: seq<byte>, from: nat, depth: nat)
    requires from < |content|
    ensures MembersSoFar(content, from, from, depth, [])
  {
    FurtherNothing(NoElements(0), ParseMembers(content[from..], depth));
  }

  lemma MembersRound(content: seq<byte>, from: nat, at: nat, depth: nat, pairs: seq<Pair>)
    requires from <= at < |content| && MembersSoFar(content, from, at, depth, pairs)
    ensures var head, r := NextMember(content[at..], depth), ParseMembers(content[from..], depth);
      if head.BadMember? then r == NoMembers(at + head.at - from)
      else
        var next, pairs' := at + head.end, pairs + [Pair(head.key, head.value)];
        if next < |content| && content[next] == COMMA then MembersSoFar(content, from, next, depth, pairs')
        else if next < |content| && content[next] == CLOSE_BRACE then
          r == SomeMembers(ChainMembers(pairs', NoMember), next - from)
        else r == NoMembers(next - from)
  {
    hide *;
    var s := content[at..];
    MembersSoFarMeans(content, from, at, depth, pairs);
    FurtherMember(s, depth, pairs, at - from);
    var head := NextMember(s, depth);
    if head.MemberHead? && at + head.end < |content| {
      Suffix(content, at, head.end);
      assert s[head.end] == content[at + head.end];
      MembersSoFarMeans(content, from, at + head.end, depth, pairs + [Pair(head.key, head.value)]);
    }
  }

  /** The cases of an array, the cursor being at `p` after the bracket and the white space behind it. */
  lemma ArrayPositions(content: seq<byte>, o: nat, p: nat, depth: nat)
    requires o < |content| && content[o] == OPEN_BRACKET && p == o + 1 + Skip(content[o + 1..]) && depth < NESTING_LIMIT
    ensures p >= |content| ==> ParseArray(content[o..], depth) == Failure(0)
    ensures p < |content| && content[p] == CLOSE_BRACKET ==>
      ParseArray(content[o..], depth) == Success(Array(NoElement), p + 1 - o)
    ensures p < |content| && content[p] != CLOSE_BRACKET ==>
      var r := ParseElements(content[p - 1..], depth + 1);
      ParseArray(content[o..], depth) ==
        if r.SomeElements? then Success(Array(r.elements), p + r.end - o) else Failure(p - 1 + r.at - o)
  {
    hide ParseElements, Skip;
    Suffix(content, o, 1);
    Suffix(content, o, p - o - 1);
  }

  lemma ArrayTooDeep(s: seq<byte>, depth: nat)
    requires s != [] && s[0] == OPEN_BRACKET && depth >= NESTING_LIMIT
    ensures ParseArray(s, depth) == Failure(0)
  {
    hide ParseElements, Skip;
  }

  /** The cases of an object, the cursor being at `p` after the bracket and the white space behind it. */
  lemma ObjectPositions(content: seq<byte>, o: nat, p: nat, depth: nat)
    requires o < |content| && content[o] == OPEN_BRACE && p == o + 1 + Skip(content[o + 1..]) && depth < NESTING_LIMIT
    ensures p >= |content| ==> ParseObject(content[o..], depth) == Failure(0)
    ensures p < |content| && content[p] == CLOSE_BRACE ==>
      ParseObject(content[o..], depth) == Success(Object(NoMember), p + 1 - o)
    ensures p < |content| && content[p] != CLOSE_BRACE ==>
      var r := ParseMembers(content[p - 1..], depth + 1);
      ParseObject(content[o..], depth) ==
        if r.SomeMembers? then Success(Object(r.members), p + r.end - o) else Failure(p - 1 + r.at - o)
  {
    hide ParseMembers, Skip;
    Suffix(content, o, 1);
    Suffix(content, o, p - o - 1);
  }

  lemma ObjectTooDeep(s: seq<byte>, depth: nat)
    requires s != [] && s[0] == OPEN_BRACE && depth >= NESTING_LIMIT
    ensures ParseObject(s, depth) == Failure(0)
  {
    hide ParseMembers, Skip;
  }

  // Names and members, in terms of positions in the whole input

  lemma NameFails(content: seq<byte>, o: nat, p1: nat)
    requires o + 1 < |content| && p1 == o + 1 + Skip(content[o + 1..]) && ParseString(content[p1..]).Failed?
    ensures NextName(content[o..]) == BadName(p1 + ParseString(content[p1..]).at - o)
  {
    hide Skip, ParseString;
    Suffix(content, o, 1);
    Suffix(content, o, p1 - o);
  }

  lemma NameEnds(content: seq<byte>, o: nat, p1: nat, p2: nat, p3: nat)
    requires o + 1 < |content| && p1 == o + 1 + Skip(content[o + 1..]) && ParseString(content[p1..]).Parsed?
    requires p2 == p1 + ParseString(content[p1..]).used && p3 == p2 + Skip(content[p2..])
    ensures NextName(content[o..]) ==
      if p3 < |content| && content[p3] == COLON then NameHead(CString(ParseString(content[p1..]).bytes), p3 - o)
      else BadName(p3 - o)
  {
    hide *;
    var s := content[o..];
    Suffix(content, o, 1);
    Suffix(content, o, p1 - o);
    Suffix(content, o, p2 - o);
    NameRule(s, p1 - o);
  }

  lemma NameRule(s: seq<byte>, start: nat)
    requires 1 < |s| && start == 1 + Skip(s[1..]) && ParseString(s[start..]).Parsed?
    ensures var name := ParseString(s[start..]);
      var colon := start + name.used + Skip(s[start + name.used..]);
      NextName(s) ==
        if colon < |s| && s[colon] == COLON then NameHead(CString(name.bytes), colon) else BadName(colon)
  {
    hide Skip, ParseString, CString;
  }

  lemma OneCharacter(s: seq<byte>)
    requires |s| == 1
    ensures NextName(s) == BadName(0)
  {
  }

  lemma MemberPositions(content: seq<byte>, o: nat, colon: nat, depth: nat)
    requires o <= colon < |content| && NextName(content[o..]).NameHead?
    requires NextName(content[o..]).colon == colon - o
    ensures var key, r := NextName(content[o..]).key, NextMember(content[o..], depth);
      var p4 := colon + 1 + Skip(content[colon + 1..]);
      var v := ParseValue(content[p4..], depth);
      if v.Failure? then r == BadMember(p4 + v.at - o)
      else
        var p5 := p4 + v.used;
        r == MemberHead(key, v.value, p5 + Skip(content[p5..]) - o)
  {
    hide Skip, ParseValue, NextName;
    var s := content[o..];
    Suffix(content, o, colon - o + 1);
    var start := colon - o + 1 + Skip(s[colon - o + 1..]);
    Suffix(content, o, start);
    var v := ParseValue(s[start..], depth);
    if v.Success? {
      Suffix(content, o, start + v.used);
    }
  }

  lemma BadNameBadMember(s: seq<byte>, depth: nat)
    requires s != [] && NextName(s).BadName?
    ensures NextMember(s, depth) == BadMember(NextName(s).at)
  {
    hide NextName;
  }

  lemma NumberRunNext(content: seq<byte>, o: nat)
    requires o < |content|
    ensures NumberRun(content[o..]) == if IsNumberChar(content[o]) then 1 + NumberRun(content[o + 1..]) else 0
  {
    hide IsNumberChar;
    Suffix(content, o, 1);
  }

  /** The parser's answer and its cursor agree with the grammar. */
  predicate Agrees(r: Outcome, value: Option<Json>, from: nat, offset: nat) {
    match r
    case Success(v, used) => value == Some(v) && offset == from + used
    case Failure(at) => value == None && offset == from + at
  }

  // ---- The cursor ----

  class ParseBuffer {
    const content: seq<byte>
    var offset: nat
    var depth: nat

    constructor (content: seq<byte>)
      ensures this.content == content && offset == 0 && depth == 0
    {
      this.content := content;
      offset, depth := 0, 0;
    }

    method SkipUtf8Bom()
      requires offset == 0
      modifies this`offset
      ensures offset == BomLength(content) <= |content|
    {
      if |content| > 4 && content[0..3] == BOM {
        offset := 3;
      }
    }

    method SkipWhitespace()
      requires offset <= |content|
      modifies this`offset
      ensures offset <= |content| && offset == old(offset) + Skip(content[old(offset)..])
    {
      if offset >= |content| {
        return;
      }
      while offset < |content| && content[offset] <= 32
        invariant old(offset) <= offset <= |content|
        invariant offset + WhiteRun(content[offset..]) == old(offset) + WhiteRun(content[old(offset)..])
        decreases |content| - offset
      {
        Suffix(content, offset, 1);
        offset := offset + 1;
      }
      if offset == |content| {
        offset := offset - 1;
      }
    }

    /** The characters that can belong to a number. */
    method NumberLength() returns (n: nat)
      requires offset <= |content|
      ensures n == NumberRun(content[offset..]) && offset + n <= |content|
    {
      hide IsNumberChar, NumberRun;
      n := 0;
      while offset + n < |content| && IsNumberChar(content[offset + n])
        invariant offset + n <= |content|
        invariant n + NumberRun(content[offset + n..]) == NumberRun(content[offset..])
      {
        NumberRunNext(content, offset + n);
        n := n + 1;
      }
      if offset + n < |content| {
        NumberRunNext(content, offset + n);
      }
    }

    /** Convert the characters of a number; the conversion itself is the library's. */
    method ParseNumber() returns (value: Option<Json>)
      requires offset <= |content|
      modifies this`offset
      ensures offset <= |content|
      ensures var c := JsonNumber.ParseNumber(content[old(offset)..]);
        offset == old(offset) + c.used && value == if c.used == 0 then None else Some(NumberOf(c.value))
    {
      var length := NumberLength();
      var numberCString := content[offset..offset + length];
      assert numberCString == content[offset..][..length];
      var c := Strtod(numberCString);
      assert c == JsonNumber.ParseNumber(content[offset..]);
      if c.used == 0 {
        return None;
      }
      value := Some(NumberOf(c.value));
      offset := offset + c.used;
    }

    /** First pass over a string literal: where it ends, and how many bytes escapes save. */
    method FindEnd() returns (inputEnd: Option<nat>, skippedBytes: nat)
      requires offset < |content| && content[offset] == QUOTE
      ensures inputEnd.None? <==> ClosingQuote(content[offset..], 1).None?
      ensures inputEnd.Some? ==>
        offset < inputEnd.value < |content| && ClosingQuote(content[offset..], 1) == Some(inputEnd.value - offset)
      ensures inputEnd.Some? ==>
        var t := content[offset + 1..inputEnd.value];
        !Inside(t, |t|, false) && skippedBytes + Room(t, false) == |t|
    {
      hide ClosingQuote, Room, Inside;
      RoomOfNothing(false);
      assert content[offset + 1..offset + 1] == [];
      var end := offset + 1;
      skippedBytes := 0;
      while end < |content| && content[end] != QUOTE
        invariant offset + 1 <= end <= |content|
        invariant ClosingQuote(content[offset..], end - offset) == ClosingQuote(content[offset..], 1)
        invariant !Inside(content[offset + 1..end], end - offset - 1, false)
        invariant skippedBytes + Room(content[offset + 1..end], false) == end - offset - 1
      {
        ghost var t := content[offset + 1..end];
        ClosingNext(content, offset, end);
        if content[end] == BACKSLASH {
          if end + 1 >= |content| {
            return None, skippedBytes;
          }
          RoomEscape(t, content[end + 1]);
          assert content[offset + 1..end + 2] == t + [BACKSLASH, content[end + 1]];
          skippedBytes := skippedBytes + 1;
          end := end + 1;
        } else {
          RoomPlain(t, content[end]);
          assert content[offset + 1..end + 1] == t + [content[end]];
        }
        end := end + 1;
      }
      ClosingNext(content, offset, end);
      inputEnd := if end >= |content| || content[end] != QUOTE then None else Some(end);
    }

    /** One round of the second pass: a plain character or an escape. Nothing is used when the escape is refused. */
    method UnescapePiece(p: nat, end: nat, output: array<byte>, at: nat) returns (used: nat, next: nat)
      requires p < end < |content| && content[end] == QUOTE
      requires at <= output.Length
      requires var piece := FirstPiece(content[p..end]);
        piece.Piece? ==> at + |piece.bytes| <= output.Length
      modifies output
      ensures var piece := FirstPiece(content[p..end]);
        if piece.NoPiece? then used == 0 && next == at
        else
          used == piece.used && next == at + |piece.bytes| <= output.Length &&
          output[..next] == old(output[..at]) + piece.bytes
    {
      hide DecodeLiteral, Utf8;
      ghost var t := content[p..end];
      assert t[0] == content[p] && (|t| > 1 ==> t[1] == content[p + 1]);
      assert |t| == 1 ==> content[p + 1] == QUOTE;
      used, next := 0, at;
      if content[p] != BACKSLASH {
        output[at] := content[p];
        used, next := 1, at + 1;
      } else {
        var letter := content[p + 1];
        if letter == LETTER_U {
          used, next := LiteralToUtf8(content, p, end, output, at);
        } else if UnescapeLetter(letter).Some? {
          output[at] := UnescapeLetter(letter).value;
          used, next := 2, at + 1;
        }
      }
    }

    method ParseString() returns (value: Option<seq<byte>>)
      requires offset < |content|
      modifies this`offset
      ensures var r := JsonString.ParseString(content[old(offset)..]);
        if r.Parsed? then value == Some(CString(r.bytes)) && offset == old(offset) + r.used <= |content|
        else value == None && offset == old(offset) + r.at <= |content|
    {
      hide *;
      var start := offset + 1;
      if content[offset] != QUOTE {
        StringNotOpened(content[offset..]);
        offset := start;
        return None;
      }
      assert content[offset..][0] == QUOTE;
      var last, skippedBytes := FindEnd();
      if last == None {
        StringNotOpened(content[offset..]);
        offset := start;
        return None;
      }
      var inputEnd := last.value;
      assert content[offset..][1..inputEnd - offset] == content[start..inputEnd];
      StringClosed(content[offset..], inputEnd - offset);
      var allocationLength := inputEnd - offset - skippedBytes;
      var output := new byte[allocationLength + 1];
      var ok, inputPointer, outputPointer := SecondPass(start, inputEnd, output);
      if !ok {
        offset := inputPointer;
        return None;
      }
      var text := Terminate(output, outputPointer);
      value := Some(text);
      offset := inputEnd + 1;
    }

    /** The C string in the output, once the zero is behind it. */
    method Terminate(output: array<byte>, at: nat) returns (text: seq<byte>)
      requires at < output.Length
      modifies output
      ensures text == CString(old(output[..at]))
    {
      ghost var written := output[..at];
      output[at] := 0;
      CStringEnds(output[..], at);
      assert output[..][..at] == written;
      text := CString(output[..]);
    }

    /** The second pass never writes beyond the size computed in the first, even where the passes disagree. */
    method SecondPass(start: nat, inputEnd: nat, output: array<byte>)
        returns (ok: bool, inputPointer: nat, outputPointer: nat)
      requires start <= inputEnd < |content| && content[inputEnd] == QUOTE
      requires var t := content[start..inputEnd];
        !Inside(t, |t|, false) && Room(t, false) < output.Length
      modifies output
      ensures var t := content[start..inputEnd];
        match Unescape(t)
        case Stuck(at) => !ok && inputPointer == start + at
        case Text(bytes) => ok && outputPointer < output.Length && output[..outputPointer] == bytes
    {
      ghost var t := content[start..inputEnd];
      ghost var inside := false;
      inputPointer, outputPointer := start, 0;
      HalfWayStart(t);
      hide *;
      ghost var rest := t;
      assert output[..0] == [];
      while inputPointer < inputEnd
        invariant start <= inputPointer && outputPointer < output.Length
        invariant rest == if inputPointer <= inputEnd then content[inputPointer..inputEnd] else []
        invariant HalfWay(t, rest, inputPointer - start, output[..outputPointer], inside)
        decreases inputEnd - inputPointer
        modifies output
      {
        inside := HalfWayNext(t, rest, inputPointer - start, output[..outputPointer], inside);
        var used, next := UnescapePiece(inputPointer, inputEnd, output, outputPointer);
        if used == 0 {
          ok := false;
          return;
        }
        Advance(content, inputPointer, inputEnd, used);
        rest := Behind(rest, used);
        inputPointer := inputPointer + used;
        outputPointer := next;
      }
      HalfWayDone(t, inputPointer - start, output[..outputPointer], inside);
      ok := true;
    }

    method ParseValue() returns (value: Option<Json>)
      requires offset <= |content|
      modifies this
      ensures offset <= |content|
      ensures Agrees(JsonParse.ParseValue(content[old(offset)..], old(depth)), value, old(offset), offset)
      ensures value.Some? ==> depth == old(depth)
      decreases |content| - offset, 3
    {
      ghost var s := content[offset..];
      if StartsWith(NULL_TEXT) {
        offset := offset + |NULL_TEXT|;
        return Some(Null);
      }
      if StartsWith(FALSE_TEXT) {
        offset := offset + |FALSE_TEXT|;
        return Some(False);
      }
      if StartsWith(TRUE_TEXT) {
        offset := offset + |TRUE_TEXT|;
        return Some(True);
      }
      if offset < |content| {
        assert content[offset] == s[0];
        if content[offset] == QUOTE {
          var bytes := ParseString();
          return if bytes.Some? then Some(String(bytes.value)) else None;
        }
        if content[offset] == MINUS || IsDigit(content[offset]) {
          value := ParseNumber();
          return;
        }
        if content[offset] == OPEN_BRACKET {
          value := ParseArray();
          return;
        }
        if content[offset] == OPEN_BRACE {
          value := ParseObject();
          return;
        }
      }
      value := None;
    }

    predicate StartsWith(word: seq<byte>)
      requires offset <= |content|
      reads this
      ensures StartsWith(word) <==> word <= content[offset..]
    {
      offset + |word| <= |content| && content[offset..offset + |word|] == word
    }

    method ParseArray() returns (value: Option<Json>)
      requires offset < |content| && content[offset] == OPEN_BRACKET
      modifies this
      ensures offset <= |content|
      ensures Agrees(JsonParse.ParseArray(content[old(offset)..], old(depth)), value, old(offset), offset)
      ensures value.Some? ==> depth == old(depth)
      decreases |content| - offset, 2
    {
      hide JsonParse.ParseArray, JsonParse.ParseElements, Skip, Chain;
      ghost var o, outer := offset, depth;
      if depth >= NESTING_LIMIT {
        ArrayTooDeep(content[o..], depth);
        return None;
      }
      depth := depth + 1;
      offset := offset + 1;
      SkipWhitespace();
      ArrayPositions(content, o, offset, outer);
      if offset < |content| && content[offset] == CLOSE_BRACKET {
        depth := depth - 1;
        offset := offset + 1;
        return Some(Array(NoElement));
      }
      if offset >= |content| {
        offset := offset - 1;
        return None;
      }
      offset := offset - 1;
      var values := ParseElements();
      if values == None {
        return None;
      }
      depth := depth - 1;
      offset := offset + 1;
      value := Some(Array(Chain(values.value, NoElement)));
    }

    /** The loop over the elements; the cursor is on the character in front of the first. */
    method ParseElements() returns (values: Option<seq<Json>>)
      requires offset < |content|
      modifies this
      ensures old(offset) <= offset <= |content|
      ensures var r := JsonParse.ParseElements(content[old(offset)..], old(depth));
        if values == None then r.NoElements? && offset == old(offset) + r.at
        else r == SomeElements(Chain(values.value, NoElement), offset - old(offset)) && offset < |content|
      ensures values.Some? ==> depth == old(depth)
      decreases |content| - offset, 1
    {
      ghost var from := offset;
      var items: seq<Json> := [];
      hide JsonParse.ParseElements, NextElement, Chain, ElementsSoFar;
      ElementsBegin(content, from, depth);
      while true
        invariant from <= offset < |content| && depth == old(depth)
        invariant ElementsSoFar(content, from, offset, depth, items)
        decreases |content| - offset
      {
        ElementsRound(content, from, offset, depth, items);
        var item := ParseElement();
        if item == None {
          return None;
        }
        items := items + [item.value];
        if !(offset < |content| && content[offset] == COMMA) {
          break;
        }
      }
      if offset >= |content| || content[offset] != CLOSE_BRACKET {
        return None;
      }
      values := Some(items);
    }

    /** One round: step over the character in front, skip, parse a value, skip. */
    method ParseElement() returns (item: Option<Json>)
      requires offset < |content|
      modifies this
      ensures old(offset) <= offset <= |content|
      ensures var head := NextElement(content[old(offset)..], old(depth));
        if item == None then head.BadElement? && offset == old(offset) + head.at
        else head == ElementHead(item.value, offset - old(offset)) && offset > old(offset)
      ensures item.Some? ==> depth == old(depth)
      decreases |content| - offset, 0
    {
      hide JsonParse.ParseValue, Skip;
      ghost var s := content[offset..];
      offset := offset + 1;
      Suffix(content, old(offset), 1);
      SkipWhitespace();
      Suffix(content, old(offset), offset - old(offset));
      item := ParseValue();
      if item == None {
        return;
      }
      Suffix(content, old(offset), offset - old(offset));
      SkipWhitespace();
    }

    method ParseObject() returns (value: Option<Json>)
      requires offset < |content| && content[offset] == OPEN_BRACE
      modifies this
      ensures offset <= |content|
      ensures Agrees(JsonParse.ParseObject(content[old(offset)..], old(depth)), value, old(offset), offset)
      ensures value.Some? ==> depth == old(depth)
      decreases |content| - offset, 2
    {
      hide JsonParse.ParseObject, JsonParse.ParseMembers, Skip, ChainMembers;
      ghost var o, outer := offset, depth;
      if depth >= NESTING_LIMIT {
        ObjectTooDeep(content[o..], depth);
        return None;
      }
      depth := depth + 1;
      offset := offset + 1;
      SkipWhitespace();
      ObjectPositions(content, o, offset, outer);
      if offset < |content| && content[offset] == CLOSE_BRACE {
        depth := depth - 1;
        offset := offset + 1;
        return Some(Object(NoMember));
      }
      if offset >= |content| {
        offset := offset - 1;
        return None;
      }
      offset := offset - 1;
      var pairs := ParseMembers();
      if pairs == None {
        return None;
      }
      depth := depth - 1;
      offset := offset + 1;
      value := Some(Object(ChainMembers(pairs.value, NoMember)));
    }

    method ParseMembers() returns (pairs: Option<seq<Pair>>)
      requires offset < |content|
      modifies this
      ensures old(offset) <= offset <= |content|
      ensures var r := JsonParse.ParseMembers(content[old(offset)..], old(depth));
        if pairs == None then r.NoMembers? && offset == old(offset) + r.at
        else r == SomeMembers(ChainMembers(pairs.value, NoMember), offset - old(offset)) && offset < |content|
      ensures pairs.Some? ==> depth == old(depth)
      decreases |content| - offset, 1
    {
      ghost var from := offset;
      var items: seq<Pair> := [];
      hide JsonParse.ParseMembers, NextMember, ChainMembers, MembersSoFar;
      MembersBegin(content, from, depth);
      while true
        invariant from <= offset < |content| && depth == old(depth)
        invariant MembersSoFar(content, from, offset, depth, items)
        decreases |content| - offset
      {
        MembersRound(content, from, offset, depth, items);
        var item := ParseMember();
        if item == None {
          return None;
        }
        items := items + [item.value];
        if !(offset < |content| && content[offset] == COMMA) {
          break;
        }
      }
      if offset >= |content| || content[offset] != CLOSE_BRACE {
        return None;
      }
      pairs := Some(items);
    }

    /** A name with the white space around it, up to its colon. */
    method ParseName() returns (name: Option<seq<byte>>)
      requires offset < |content|
      modifies this`offset
      ensures old(offset) <= offset <= |content|
      ensures var head := NextName(content[old(offset)..]);
        if name == None then head.BadName? && offset == old(offset) + head.at
        else head == NameHead(name.value, offset - old(offset)) && offset < |content|
    {
      hide *;
      ghost var o := offset;
      if offset + 1 >= |content| {
        OneCharacter(content[o..]);
        return None;
      }
      offset := offset + 1;
      SkipWhitespace();
      ghost var p1 := offset;
      name := ParseString();
      if name == None {
        NameFails(content, o, p1);
        return None;
      }
      ghost var p2 := offset;
      SkipWhitespace();
      NameEnds(content, o, p1, p2, offset);
      if offset >= |content| || content[offset] != COLON {
        return None;
      }
    }

    /** One round: a name, a colon and a value, with the white space around them. */
    method ParseMember() returns (item: Option<Pair>)
      requires offset < |content|
      modifies this
      ensures old(offset) <= offset <= |content|
      ensures var head := NextMember(content[old(offset)..], old(depth));
        if item == None then head.BadMember? && offset == old(offset) + head.at
        else head == MemberHead(item.value.key, item.value.value, offset - old(offset)) && offset > old(offset)
      ensures item.Some? ==> depth == old(depth)
      decreases |content| - offset, 0
    {
      hide JsonParse.ParseValue, Skip, NextName, NextMember;
      ghost var from, s := offset, content[offset..];
      var name := ParseName();
      if name == None {
        BadNameBadMember(s, depth);
        return None;
      }
      MemberPositions(content, from, offset, depth);
      offset := offset + 1;
      SkipWhitespace();
      var value := ParseValue();
      if value == None {
        return None;
      }
      SkipWhitespace();
      item := Some(Pair(name.value, value.value));
    }
  }

  lemma TextFails(text: seq<byte>, start: nat, at: nat, requireNullTerminated: bool)
    requires text != [] && start == BomLength(text) + Skip(text[BomLength(text)..]) <= |text|
    requires ParseValue(text[start..], 0) == Failure(at)
    ensures ParseText(text, requireNullTerminated) == ErrorAt(text, start + at)
  {
    hide ParseValue, Skip, BomLength, ErrorAt;
  }

  lemma TextEnds(text: seq<byte>, start: nat, value: Json, end: nat, last: nat, requireNullTerminated: bool)
    requires text != [] && start == BomLength(text) + Skip(text[BomLength(text)..]) <= |text|
    requires start <= end <= |text| && ParseValue(text[start..], 0) == Success(value, end - start)
    requires last == if requireNullTerminated then end + Skip(text[end..]) else end
    ensures ParseText(text, requireNullTerminated) ==
      if requireNullTerminated && (last >= |text| || text[last] != 0) then ErrorAt(text, last)
      else Document(value, last)
  {
    hide ParseValue, Skip, BomLength, ErrorAt;
  }

  lemma AgreesMeans(r: Outcome, value: Option<Json>, from: nat, offset: nat)
    requires Agrees(r, value, from, offset)
    ensures if value == None then offset >= from && r == Failure(offset - from)
      else offset >= from && r == Success(value.value, offset - from)
  {
  }

  /** Parse a whole text; the answer carries the position behind the value, or the error position. */
  method ParseWithLengthOpts(text: seq<byte>, requireNullTerminated: bool) returns (d: Document)
    ensures d == ParseText(text, requireNullTerminated)
  {
    if |text| == 0 {
      return Error(0);
    }
    var buffer := new ParseBuffer(text);
    buffer.SkipUtf8Bom();
    buffer.SkipWhitespace();
    hide *;
    ghost var start := buffer.offset;
    var value := buffer.ParseValue();
    AgreesMeans(JsonParse.ParseValue(text[start..], 0), value, start, buffer.offset);
    if value == None {
      TextFails(text, start, buffer.offset - start, requireNullTerminated);
      return ErrorAt(text, buffer.offset);
    }
    ghost var end := buffer.offset;
    if requireNullTerminated {
      buffer.SkipWhitespace();
    }
    TextEnds(text, start, value.value, end, buffer.offset, requireNullTerminated);
    if requireNullTerminated && (buffer.offset >= |text| || text[buffer.offset] != 0) {
      return ErrorAt(text, buffer.offset);
    }
    d := Document(value.value, buffer.offset);
  }

  lemma AfterNothing(r: Text)
    ensures After([], 0, r) == r
  {
  }
}
