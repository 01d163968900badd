/** What happens to a number beyond the range of double precision: the text `1e999`. */
module JsonInfinity {
  import opened Bytes
  import opened JsonNumber
  import opened JsonValue
  import opened JsonParse
  import opened JsonCompare
  import opened JsonReprint
  import opened JsonComplete

  const TOO_LARGE: seq<byte> := [49, 101, 57, 57, 57]

  lemma TooLargeRuns()
    ensures NumberRun(TOO_LARGE) == 5 && TOO_LARGE[..5] == TOO_LARGE
    ensures DigitRun(TOO_LARGE) == 1 && DigitsValue(TOO_LARGE[..1]) == 1
    ensures DigitRun(TOO_LARGE[2..]) == 3 && DigitsValue(TOO_LARGE[2..]) == 999
  {
    var s := TOO_LARGE;
    assert s[1..] == [101, 57, 57, 57] && s[2..] == [57, 57, 57];
    assert s[3..] == [57, 57] && s[4..] == [57] && s[5..] == [];
    assert s[1..][1..] == s[2..] && s[2..][1..] == s[3..] && s[3..][1..] == s[4..] && s[4..][1..] == s[5..];
    assert NumberRun(s[4..]) == 1 && NumberRun(s[3..]) == 2 && NumberRun(s[2..]) == 3 && NumberRun(s[1..]) == 4;
    assert DigitRun(s[4..]) == 1 && DigitRun(s[3..]) == 2;
    assert s[..1] == [49] && [49][..0] == [];
    assert [57, 57, 57][..2] == [57, 57] && [57, 57][..1] == [57] && [57][..0] == [];
    assert DigitsValue([57]) == 9 && DigitsValue([57, 57]) == 99;
  }

  lemma TooLargeConverts()
    ensures JsonNumber.ParseNumber(TOO_LARGE) == Conversion(Pow10(999), 5)
  {
    TooLargeRuns();
    hide NumberRun, DigitRun, DigitsValue, Pow10;
    var s := TOO_LARGE;
    assert s[0..] == s && s[0..1] == s[..1] && s[0..1] + [] == s[..1];
    assert s[1..][1..] == s[2..] && s[1..][1..4] == s[2..];
    assert ExponentOf(s[1..]) == Exponent(999, 4);
  }

  /** A text that is a number, as a document. */
  lemma NumberDocument(text: seq<byte>)
    requires text != [] && IsDigit(text[0]) && JsonNumber.ParseNumber(text).used == |text|
    ensures ParseText(text, false) == Document(NumberOf(JsonNumber.ParseNumber(text).value), |text|)
  {
    OpensNumber(text, 0);
    SkipNothing(text);
    hide JsonNumber.ParseNumber, ParseValue, Skip;
    assert text[0..] == text;
  }

  /** The largest double, and everything below it in magnitude, is finite; from 2^1024 on a number is infinite. */
  lemma RangeOfDoubles(x: real)
    ensures -(Pow2(1024) - Pow2(971)) <= x <= Pow2(1024) - Pow2(971) ==> NumberOf(x) == Number(x)
    ensures x >= Pow2(1024) ==> NumberOf(x) == Infinite(false)
    ensures x <= -Pow2(1024) ==> NumberOf(x) == Infinite(true)
  {
    Pow2Grows(970, 971);
    Pow2Grows(971, 1023);
    assert Pow2(971) == 2.0 * Pow2(970);
    assert Pow2(1024) == 2.0 * Pow2(1023);
    hide Pow2;
  }

  /** The parser accepts the text and stores what the conversion returns: infinity. */
  lemma TooLargeParses()
    ensures ParseText(TOO_LARGE, false) == Document(Infinite(false), 5)
  {
    TooLargeConverts();
    Pow10Grows(999);
    Pow2Grows(1024, 2997);
    OverflowRange();
    hide JsonNumber.ParseNumber, Pow10, Pow2, Overflow, ParseText;
    NumberDocument(TOO_LARGE);
  }

  /**
   An infinite value has no object, and so no repeated key. It is copied unchanged and does not compare equal to its
   duplicate; it compares equal to every finite number and to the opposite infinity.
   */
  lemma InfinityIsNotItself(negative: bool, x: real, caseSensitive: bool)
    ensures var v := Infinite(negative);
      Distinct(v, caseSensitive) && Duplicate(v, 0) == Some(v) && !Compare(v, v, caseSensitive) &&
      Compare(v, Number(x), caseSensitive) && Compare(v, Infinite(!negative), caseSensitive)
  {
  }

  /** It is printed as a null, and that is what is read back. */
  lemma InfinityPrintsAsNull(negative: bool, format: bool)
    ensures ParseText(Render(Infinite(negative), format, 0) + [0], true) == Document(Null, 4)
  {
    PrintThenParseAny(Infinite(negative), format, true);
    hide ParseText;
  }
}
