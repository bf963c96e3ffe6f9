/** Public numbers of orders and order items: printer and parser of app/orders/numbers.py. */
module Numbers {
  import opened Options

  datatype PublicNumber = PublicNumber(order: nat, line: Option<nat>)

  /** What the text library knows of characters: the values of decimal digits, of any script, and white space. */
  datatype Script = Script(digit: char -> Option<nat>, space: char -> bool)

  /** ASCII digits are digits, a dash is not one, and neither is white space. */
  ghost predicate ReadsAscii(t: Script) {
    && (forall d: nat :: d < 10 ==> t.digit(DigitChar(d)) == Some(d))
    && t.digit('-').None? && !t.space('-')
    && forall c :: t.digit(c).Some? ==> t.digit(c).value < 10 && !t.space(c)
  }

  /** ASCII alone: all that the API's own pattern lets through. */
  function Ascii(): Script {
    Script((c: char) => if '0' <= c <= '9' then Some(c as int - '0' as int) else None,
           (c: char) => c == ' ' || (9 <= c as int <= 13) || (28 <= c as int <= 31))
  }

  lemma AsciiReadsAscii()
    ensures ReadsAscii(Ascii())
  {
  }

  predicate IsDigit(t: Script, c: char) { t.digit(c).Some? }

  predicate AllDigits(t: Script, s: string) { forall i :: 0 <= i < |s| ==> IsDigit(t, s[i]) }

  predicate Digits(t: Script, s: string) { s != "" && AllDigits(t, s) }

  function DigitChar(d: nat): (c: char)
    requires d < 10
    ensures '0' <= c <= '9' && c as int - '0' as int == d
  {
    ('0' as int + d) as char
  }

  function PrintNat(n: nat): string {
    if n < 10 then [DigitChar(n)] else PrintNat(n / 10) + [DigitChar(n % 10)]
  }

  function ItemNumber(order: nat, line: nat): string {
    PrintNat(order) + "-" + PrintNat(line)
  }

  function Printed(number: PublicNumber): string {
    match number.line
    case None => PrintNat(number.order)
    case Some(line) => ItemNumber(number.order, line)
  }

  function Value(t: Script, s: string): nat
    requires AllDigits(t, s)
  {
    if s == "" then 0 else 10 * Value(t, s[..|s| - 1]) + t.digit(s[|s| - 1]).value
  }

  function StripLeft(t: Script, s: string): string {
    if s != "" && t.space(s[0]) then StripLeft(t, s[1..]) else s
  }

  function StripRight(t: Script, s: string): string {
    if s != "" && t.space(s[|s| - 1]) then StripRight(t, s[..|s| - 1]) else s
  }

  function Strip(t: Script, s: string): string { StripRight(t, StripLeft(t, s)) }

  /** Length of the longest prefix of digits. */
  function DigitRun(t: Script, s: string): (k: nat)
    ensures k <= |s| && AllDigits(t, s[..k])
    ensures k < |s| ==> !IsDigit(t, s[k])
  {
    if s == "" || !IsDigit(t, s[0]) then 0
    else
      var k := DigitRun(t, s[1..]);
      assert s[..k + 1] == [s[0]] + s[1..][..k];
      k + 1
  }

  function ParseStripped(t: Script, s: string): Option<PublicNumber> {
    var k := DigitRun(t, s);
    if k == 0 then None
    else if k == |s| then (assert s[..k] == s; Some(PublicNumber(Value(t, s), None)))
    else if s[k] == '-' && Digits(t, s[k + 1..]) then Some(PublicNumber(Value(t, s[..k]), Some(Value(t, s[k + 1..]))))
    else None
  }

  function ParsePublicNumber(t: Script, value: string): Option<PublicNumber> {
    ParseStripped(t, Strip(t, value))
  }

  lemma {:induction false} RunStopsAt(t: Script, a: string, b: string)
    requires AllDigits(t, a) && (b != "" ==> !IsDigit(t, b[0]))
    ensures DigitRun(t, a + b) == |a|
  {
    if a == "" {
      assert a + b == b;
    } else {
      assert (a + b)[1..] == a[1..] + b;
      RunStopsAt(t, a[1..], b);
    }
  }

  /** The parser accepts digits, or digits, a dash and digits, and reads off exactly their values. */
  lemma ParsesDigits(t: Script, a: string)
    requires Digits(t, a)
    ensures ParseStripped(t, a) == Some(PublicNumber(Value(t, a), None))
  {
    assert a + "" == a;
    RunStopsAt(t, a, "");
  }

  lemma ParsesPair(t: Script, a: string, b: string)
    requires ReadsAscii(t) && Digits(t, a) && Digits(t, b)
    ensures ParseStripped(t, a + "-" + b) == Some(PublicNumber(Value(t, a), Some(Value(t, b))))
  {
    assert a + "-" + b == a + ("-" + b);
    RunStopsAt(t, a, "-" + b);
    var s := a + ("-" + b);
    assert s[..|a|] == a && s[|a| + 1..] == b && s[|a|] == '-';
  }

  predicate NumberPattern(t: Script, s: string) {
    Digits(t, s) || exists k :: 0 <= k < |s| && s[k] == '-' && Digits(t, s[..k]) && Digits(t, s[k + 1..])
  }

  /** ... and nothing else, in whatever script. */
  lemma ParsesNothingElse(t: Script, s: string)
    requires ParseStripped(t, s).Some?
    ensures NumberPattern(t, s)
  {
    var k := DigitRun(t, s);
    if k < |s| {
      assert Digits(t, s[..k]);
    } else {
      assert s[..k] == s;
    }
  }

  lemma PairParses(t: Script, s: string, k: nat)
    requires ReadsAscii(t) && k < |s| && s[k] == '-' && Digits(t, s[..k]) && Digits(t, s[k + 1..])
    ensures ParseStripped(t, s).Some?
  {
    ParsesPair(t, s[..k], s[k + 1..]);
    assert s == s[..k] + "-" + s[k + 1..];
  }

  lemma PatternParses(t: Script, s: string)
    requires ReadsAscii(t) && NumberPattern(t, s)
    ensures ParseStripped(t, s).Some?
  {
    if Digits(t, s) {
      ParsesDigits(t, s);
    } else {
      var k :| 0 <= k < |s| && s[k] == '-' && Digits(t, s[..k]) && Digits(t, s[k + 1..]);
      PairParses(t, s, k);
    }
  }

  /** With ASCII read right, a stripped string parses exactly if it has that form. */
  lemma ParsesExactly(t: Script, s: string)
    requires ReadsAscii(t)
    ensures ParseStripped(t, s).Some? <==> NumberPattern(t, s)
  {
    if ParseStripped(t, s).Some? {
      ParsesNothingElse(t, s);
    }
    if NumberPattern(t, s) {
      PatternParses(t, s);
    }
  }

  lemma {:induction false} PrintedDigits(t: Script, n: nat)
    requires ReadsAscii(t)
    ensures Digits(t, PrintNat(n)) && Value(t, PrintNat(n)) == n
  {
    var s := PrintNat(n);
    if n < 10 {
      assert t.digit(DigitChar(n)) == Some(n);
      assert s[..0] == "" && Value(t, s[..0]) == 0;
    } else {
      PrintedDigits(t, n / 10);
      assert t.digit(DigitChar(n % 10)) == Some(n % 10);
      assert s[..|s| - 1] == PrintNat(n / 10);
    }
  }

  /** Nothing is stripped from text that starts and ends with a digit. */
  lemma NothingToStrip(t: Script, s: string)
    requires ReadsAscii(t) && s != "" && IsDigit(t, s[0]) && IsDigit(t, s[|s| - 1])
    ensures Strip(t, s) == s
  {
  }

  lemma StrippedPair(t: Script, a: string, b: string)
    requires ReadsAscii(t) && Digits(t, a) && Digits(t, b)
    ensures ParsePublicNumber(t, a + "-" + b) == Some(PublicNumber(Value(t, a), Some(Value(t, b))))
  {
    var s := a + "-" + b;
    ParsesPair(t, a, b);
    assert s[0] == a[0] && s[|s| - 1] == b[|b| - 1];
    NothingToStrip(t, s);
  }

  lemma StrippedDigits(t: Script, a: string)
    requires ReadsAscii(t) && Digits(t, a)
    ensures ParsePublicNumber(t, a) == Some(PublicNumber(Value(t, a), None))
  {
    ParsesDigits(t, a);
    NothingToStrip(t, a);
  }

  /** A number the API lets through, ASCII digits with a dash between them at most, never makes the parser raise. */
  lemma QueryNumbersParse(t: Script, s: string)
    requires ReadsAscii(t) && NumberPattern(Ascii(), s)
    ensures ParsePublicNumber(t, s).Some?
  {
    if Digits(Ascii(), s) {
      AsciiDigitsRead(t, s);
      StrippedDigits(t, s);
    } else {
      var k :| 0 <= k < |s| && s[k] == '-' && Digits(Ascii(), s[..k]) && Digits(Ascii(), s[k + 1..]);
      QueryPairParses(t, s, k);
    }
  }

  lemma QueryPairParses(t: Script, s: string, k: nat)
    requires ReadsAscii(t) && k < |s| && s[k] == '-' && Digits(Ascii(), s[..k]) && Digits(Ascii(), s[k + 1..])
    ensures ParsePublicNumber(t, s).Some?
  {
    var a, b := s[..k], s[k + 1..];
    AsciiDigitsRead(t, a);
    AsciiDigitsRead(t, b);
    StrippedPair(t, a, b);
    assert s == a + "-" + b;
  }

  lemma AsciiDigitsRead(t: Script, s: string)
    requires ReadsAscii(t) && Digits(Ascii(), s)
    ensures Digits(t, s)
  {
    forall i | 0 <= i < |s| ensures IsDigit(t, s[i]) {
      assert IsDigit(Ascii(), s[i]);
      assert s[i] == DigitChar(s[i] as int - '0' as int);
    }
  }

  lemma PrintedParses(t: Script, number: PublicNumber)
    requires ReadsAscii(t)
    ensures ParsePublicNumber(t, Printed(number)) == Some(number)
  {
    PrintedDigits(t, number.order);
    match number.line
    case None =>
      StrippedDigits(t, PrintNat(number.order));
    case Some(line) =>
      PrintedDigits(t, line);
      StrippedPair(t, PrintNat(number.order), PrintNat(line));
  }

  /** Printing and parsing are inverse on every order and line number. */
  lemma NumbersRoundTrip(t: Script, order: nat, line: nat)
    requires ReadsAscii(t)
    ensures ParsePublicNumber(t, ItemNumber(order, line)) == Some(PublicNumber(order, Some(line)))
    ensures ParsePublicNumber(t, PrintNat(order)) == Some(PublicNumber(order, None))
  {
    PrintedParses(t, PublicNumber(order, Some(line)));
    PrintedParses(t, PublicNumber(order, None));
  }

  /** Different items have different public numbers. */
  lemma ItemNumbersAreDistinct(order: nat, line: nat, other: nat, otherLine: nat)
    requires ItemNumber(order, line) == ItemNumber(other, otherLine)
    ensures order == other && line == otherLine
  {
    AsciiReadsAscii();
    NumbersRoundTrip(Ascii(), order, line);
    NumbersRoundTrip(Ascii(), other, otherLine);
  }

  /** Whatever spelling was parsed, its canonical print parses to the same number. */
  lemma CanonicalPrintParsesTheSame(t: Script, value: string)
    requires ReadsAscii(t) && ParsePublicNumber(t, value).Some?
    ensures ParsePublicNumber(t, Printed(ParsePublicNumber(t, value).value)) == ParsePublicNumber(t, value)
  {
    PrintedParses(t, ParsePublicNumber(t, value).value);
  }

  /** White space around a number is ignored. */
  lemma {:induction false} LeftPadding(t: Script, pad: string, s: string)
    requires forall i :: 0 <= i < |pad| ==> t.space(pad[i])
    ensures StripLeft(t, pad + s) == StripLeft(t, s)
  {
    if pad == "" {
      assert pad + s == s;
    } else {
      assert (pad + s)[1..] == pad[1..] + s;
      LeftPadding(t, pad[1..], s);
    }
  }

  lemma {:induction false} RightPadding(t: Script, s: string, pad: string)
    requires forall i :: 0 <= i < |pad| ==> t.space(pad[i])
    ensures StripRight(t, s + pad) == StripRight(t, s)
  {
    if pad == "" {
      assert s + pad == s;
    } else {
      var last := |pad| - 1;
      assert (s + pad)[..|s + pad| - 1] == s + pad[..last];
      RightPadding(t, s, pad[..last]);
    }
  }

  lemma PaddingIsIgnored(t: Script, before: string, number: PublicNumber, after: string)
    requires ReadsAscii(t)
    requires (forall i :: 0 <= i < |before| ==> t.space(before[i])) && forall i :: 0 <= i < |after| ==> t.space(after[i])
    ensures ParsePublicNumber(t, before + Printed(number) + after) == Some(number)
  {
    var s := Printed(number);
    PrintedParses(t, number);
    PrintedEnds(t, number);
    assert before + s + after == before + (s + after);
    LeftPadding(t, before, s + after);
    assert (s + after)[0] == s[0];
    RightPadding(t, s, after);
    NothingToStrip(t, s);
  }

  lemma PrintedEnds(t: Script, number: PublicNumber)
    requires ReadsAscii(t)
    ensures var s := Printed(number); s != "" && IsDigit(t, s[0]) && IsDigit(t, s[|s| - 1])
  {
    PrintedDigits(t, number.order);
    if number.line.Some? {
      PrintedDigits(t, number.line.value);
    }
  }

  /** Leading zeros are ignored. */
  lemma {:induction false} LeadingZero(t: Script, s: string)
    requires ReadsAscii(t) && AllDigits(t, s)
    ensures AllDigits(t, [DigitChar(0)] + s) && Value(t, [DigitChar(0)] + s) == Value(t, s)
    decreases |s|
  {
    var padded := [DigitChar(0)] + s;
    assert t.digit(DigitChar(0)) == Some(0);
    if s == "" {
      assert padded[..0] == "" && Value(t, padded[..0]) == 0;
    } else {
      assert padded[..|padded| - 1] == [DigitChar(0)] + s[..|s| - 1];
      LeadingZero(t, s[..|s| - 1]);
    }
  }
}
