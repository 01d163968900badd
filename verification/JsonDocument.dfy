/** A whole text: a byte order mark, white space, one value, and what may stand behind it. */
module JsonDocument {
  import opened Bytes
  import opened JsonComplete
  import opened JsonParse
  import opened JsonSyntax
  import opened JsonValue

  lemma WithoutMark(text: seq<byte>)
    requires text == [] || text[0] != 0xEF
    ensures BomLength(text) == 0
  {
  }

  /**
   A text that starts with a written value, behind white space, is that value, if it is not nested too deeply, and
   otherwise an error. Unless a terminator is demanded, whatever follows is left unread.
   */
  lemma DocumentIsRead(white: seq<byte>, w: Written, rest: seq<byte>)
    requires AllWhite(white) && GoodWritten(w) && Delimited(rest)
    ensures var r := ParseText(white + WrittenText(w) + rest, false);
      if Depth(Meaning(w)) <= NESTING_LIMIT then r == Document(Meaning(w), |white| + |WrittenText(w)|) else r.Error?
  {
    var value := WrittenText(w);
    var text := white + value + rest;
    WrittenStarts(w);
    assert white + value + rest == white + (value + rest);
    SkipStops(white, value + rest);
    WrittenBack(w, rest, 0);
    FirstOfText(white, value, rest);
    WithoutMark(text);
    hide ParseValue, Skip, WrittenText, Meaning, GoodWritten, BomLength, AllWhite, Depth, ReadsAs;
    assert text[0..] == text;
  }

  lemma FirstOfText(white: seq<byte>, value: seq<byte>, rest: seq<byte>)
    requires AllWhite(white) && value != [] && value[0] != 0xEF
    ensures (white + value + rest)[0] != 0xEF
  {
    if white != [] {
      assert (white + value + rest)[0] == white[0];
    }
  }

  /** The text behind a value. */
  function Behind(text: seq<byte>, value: Json, end: nat, requireNullTerminated: bool): Document
    requires end <= |text|
  {
    var last := if requireNullTerminated then end + Skip(text[end..]) else end;
    if requireNullTerminated && !At(text, last, 0) then ErrorAt(text, last) else Document(value, last)
  }

  lemma TextRule(text: seq<byte>, mark: nat, start: nat, requireNullTerminated: bool)
    requires text != [] && mark == BomLength(text) && start == mark + Skip(text[mark..])
    ensures start <= |text|
    ensures match ParseValue(text[start..], 0)
      case Failure(at) => ParseText(text, requireNullTerminated) == ErrorAt(text, start + at)
      case Success(value, used) =>
        start + used <= |text| &&
        ParseText(text, requireNullTerminated) == Behind(text, value, start + used, requireNullTerminated)
  {
    hide ParseValue, Skip;
  }

  lemma BehindIff(text: seq<byte>, value: Json, end: nat)
    requires text != [] && end <= |text|
    ensures Behind(text, value, end, false) == Document(value, end)
    ensures Behind(text, value, end, true) ==
      if AllWhite(text[end..]) && end < |text| && text[|text| - 1] == 0 then Document(value, |text| - 1)
      else Error(if AllWhite(text[end..]) then |text| - 1 else end + WhiteRun(text[end..]))
  {
    hide AllWhite, WhiteRun;
    WhiteRunAll(text[end..]);
  }

  /**
   With a terminator demanded, the value must be followed by white space only, and its last character must be the zero;
   zeros count as white space.
   */
  lemma TerminatedIff(text: seq<byte>)
    requires ParseText(text, false).Document?
    ensures var r := ParseText(text, false);
      r.end <= |text| &&
      ParseText(text, true) ==
        if AllWhite(text[r.end..]) && r.end < |text| && text[|text| - 1] == 0 then Document(r.value, |text| - 1)
        else Error(if AllWhite(text[r.end..]) then |text| - 1 else r.end + WhiteRun(text[r.end..]))
  {
    hide *;
    NotEmpty(text);
    var mark, start := StartOf(text);
    TextRule(text, mark, start, false);
    TextRule(text, mark, start, true);
    match ParseValue(text[start..], 0)
    case Failure(at) => ErrorIsError(text, start + at);
    case Success(value, used) => BehindIff(text, value, start + used);
  }

  lemma StartOf(text: seq<byte>) returns (mark: nat, start: nat)
    ensures mark == BomLength(text) <= |text| && start == mark + Skip(text[mark..])
  {
    mark := BomLength(text);
    start := mark + Skip(text[mark..]);
  }

  lemma NotEmpty(text: seq<byte>)
    ensures ParseText(text, false).Document? ==> text != []
  {
  }

  lemma ErrorIsError(text: seq<byte>, at: nat)
    ensures ErrorAt(text, at).Error?
  {
  }

  /** In particular, right behind the value the terminator is the end. */
  lemma TerminatedHere(text: seq<byte>, v: Json)
    requires ParseText(text + [0], false) == Document(v, |text|)
    ensures ParseText(text + [0], true) == Document(v, |text|)
  {
    hide ParseText;
    TerminatedIff(text + [0]);
    assert (text + [0])[|text|..] == [0];
  }

  lemma {:induction false} WhiteRunAll(s: seq<byte>)
    ensures WhiteRun(s) == |s| <==> AllWhite(s)
  {
    if s != [] {
      WhiteRunAll(s[1..]);
      assert AllWhite(s) <==> s[0] <= 32 && AllWhite(s[1..]) by {
        if s[0] <= 32 && AllWhite(s[1..]) {
          forall i | 0 <= i < |s| ensures s[i] <= 32 {
            if i > 0 {
              assert s[i] == s[1..][i - 1];
            }
          }
        }
      }
    }
  }

  function Moved(d: Document, n: nat): Document {
    match d
    case Document(value, end) => Document(value, end + n)
    case Error(position) => Error(position + n)
  }

  /**
   A byte order mark in front of at least two characters only moves all positions; in front of fewer it is an error.
   */
  lemma MarkMovesText(text: seq<byte>, requireNullTerminated: bool)
    requires text == [] || text[0] != 0xEF
    ensures var r := ParseText([0xEF, 0xBB, 0xBF] + text, requireNullTerminated);
      if |text| >= 2 then r == Moved(ParseText(text, requireNullTerminated), 3) else r.Error?
  {
    var all := [0xEF, 0xBB, 0xBF] + text;
    WithoutMark(text);
    MarkLength(text);
    hide BomLength;
    assert all[3..] == text && all[0..] == all && text[0..] == text;
    if |text| >= 2 {
      MovedText(all, text, requireNullTerminated);
    } else {
      MarkIsNoValue(all);
      hide ParseValue, Skip;
    }
  }

  lemma MarkLength(text: seq<byte>)
    ensures BomLength([0xEF, 0xBB, 0xBF] + text) == if |text| >= 2 then 3 else 0
  {
  }

  lemma MovedText(all: seq<byte>, text: seq<byte>, requireNullTerminated: bool)
    requires |text| >= 2 && |all| == |text| + 3 && all[3..] == text
    requires BomLength(all) == 3 && BomLength(text) == 0
    ensures ParseText(all, requireNullTerminated) == Moved(ParseText(text, requireNullTerminated), 3)
  {
    hide *;
    var start := Skip(text);
    assert text[0..] == text;
    TextRule(all, 3, 3 + start, requireNullTerminated);
    TextRule(text, 0, start, requireNullTerminated);
    Shifted(all, text, start);
    match ParseValue(text[start..], 0)
    case Failure(at) => MovedError(all, text, start + at);
    case Success(value, used) => MovedBehind(all, text, value, start + used, requireNullTerminated);
  }

  lemma MovedError(all: seq<byte>, text: seq<byte>, at: nat)
    requires |text| >= 2 && |all| == |text| + 3
    ensures ErrorAt(all, 3 + at) == Moved(ErrorAt(text, at), 3)
  {
  }

  lemma MovedBehind(all: seq<byte>, text: seq<byte>, value: Json, end: nat, requireNullTerminated: bool)
    requires |text| >= 2 && |all| == |text| + 3 && all[3..] == text && end <= |text|
    ensures Behind(all, value, 3 + end, requireNullTerminated) ==
      Moved(Behind(text, value, end, requireNullTerminated), 3)
  {
    hide Skip;
    Shifted(all, text, end);
    var last := end + Skip(text[end..]);
    assert last < |text| ==> all[3 + last] == all[3..][last];
  }

  lemma Shifted(all: seq<byte>, text: seq<byte>, n: nat)
    requires |all| == |text| + 3 && all[3..] == text && n <= |text|
    ensures all[3 + n..] == text[n..]
  {
    assert all[3..][n..] == all[3 + n..];
  }

  lemma MarkIsNoValue(s: seq<byte>)
    requires s != [] && s[0] == 0xEF
    ensures Skip(s) == 0 && ParseValue(s, 0) == Failure(0)
  {
  }
}
