/** Printing and reading byte sizes and token counts (core/units.py, and the log parse of adapters/vllm.py). */
module Units {
  import opened Results
  import opened Arithmetic
  import opened RealArithmetic

  // ---------------------------------------------------------------- decimal digits

  predicate IsDigit(c: char) { '0' <= c <= '9' }

  function Digit(d: nat): (c: char)
    requires d < 10
    ensures IsDigit(c) && DigitValue(c) == d
  {
    '0' + d as char
  }

  function DigitValue(c: char): (d: nat)
    requires IsDigit(c)
    ensures d < 10
  {
    (c - '0') as nat
  }

  predicate AllDigits(s: string) { forall i :: 0 <= i < |s| ==> IsDigit(s[i]) }

  function PrintNat(n: nat): (s: string)
    ensures s != "" && AllDigits(s)
  {
    if n < 10 then [Digit(n)] else PrintNat(n / 10) + [Digit(n % 10)]
  }

  function ReadNat(s: string): nat
    requires AllDigits(s)
  {
    if s == "" then 0 else 10 * ReadNat(s[..|s|-1]) + DigitValue(s[|s|-1])
  }

  lemma ReadAppend(s: string, c: char)
    requires AllDigits(s) && IsDigit(c)
    ensures AllDigits(s + [c]) && ReadNat(s + [c]) == 10 * ReadNat(s) + DigitValue(c)
  {
    assert (s + [c])[..|s|] == s;
  }

  lemma {:induction false} ReadPrinted(n: nat)
    ensures ReadNat(PrintNat(n)) == n
    decreases n
  {
    if n < 10 {
      assert PrintNat(n)[..0] == "";
    } else {
      ReadPrinted(n / 10);
      ReadAppend(PrintNat(n / 10), Digit(n % 10));
    }
  }

  // ---------------------------------------------------------------- scanning

  predicate IsSpace(c: char) { c == ' ' || '\t' <= c <= '\r' || '\U{1C}' <= c <= '\U{1F}' }

  /** Blanks by code point: tab to carriage return, the four separators, and space. */
  lemma BlanksExactly(c: char)
    ensures IsSpace(c) <==> c as int == 32 || 9 <= c as int <= 13 || 28 <= c as int <= 31
  {}

  predicate IsLetter(c: char) { 'a' <= c <= 'z' || 'A' <= c <= 'Z' }

  function Lower(c: char): char { if 'A' <= c <= 'Z' then c - 'A' + 'a' else c }

  function LowerAll(s: string): (r: string)
    ensures |r| == |s|
  {
    seq(|s|, i requires 0 <= i < |s| => Lower(s[i]))
  }

  /** The length of the longest prefix whose characters all satisfy `p`. */
  function Span(s: string, p: char -> bool): (n: nat)
    ensures n <= |s| && (forall i :: 0 <= i < n ==> p(s[i]))
    ensures n < |s| ==> !p(s[n])
  {
    if s == "" || !p(s[0]) then 0 else 1 + Span(s[1..], p)
  }

  lemma {:induction false} SpanStops(a: string, b: string, p: char -> bool)
    requires forall i :: 0 <= i < |a| ==> p(a[i])
    requires b == "" || !p(b[0])
    ensures Span(a + b, p) == |a|
    decreases |a|
  {
    if a == "" {
      assert a + b == b;
    } else {
      assert (a + b)[1..] == a[1..] + b;
      SpanStops(a[1..], b, p);
    }
  }

  // ---------------------------------------------------------------- sizes

  const KIB: nat := 1024
  const MIB: nat := 1024 * 1024
  const GIB: nat := 1024 * 1024 * 1024
  const TIB: nat := 1024 * 1024 * 1024 * 1024
  const KB: nat := 1_000
  const MB: nat := 1_000_000
  const GB: nat := 1_000_000_000
  const TB: nat := 1_000_000_000_000

  function SuffixScale(suffix: string): Option<nat> {
    if suffix == "b" then Some(1)
    else if suffix == "kb" then Some(KB) else if suffix == "mb" then Some(MB)
    else if suffix == "gb" then Some(GB) else if suffix == "tb" then Some(TB)
    else if suffix == "kib" then Some(KIB) else if suffix == "mib" then Some(MIB)
    else if suffix == "gib" then Some(GIB) else if suffix == "tib" then Some(TIB)
    else None
  }

  function Pow10(k: nat): (p: real)
    ensures p >= 1.0
  {
    if k == 0 then 1.0 else 10.0 * Pow10(k - 1)
  }

  /** Digits after a point. */
  function Fraction(digits: string): real
    requires AllDigits(digits)
  {
    ReadNat(digits) as real / Pow10(|digits|)
  }

  datatype Number = Number(value: real, rest: string)

  /** Digits, then optionally a point and at least one more digit. */
  function ScanNumber(s: string): Option<Number> {
    var n := Span(s, IsDigit);
    if n == 0 then None
    else
      var whole := ReadNat(s[..n]);
      var rest := s[n..];
      if rest != "" && rest[0] == '.' then
        var m := Span(rest[1..], IsDigit);
        if m == 0 then Some(Number(whole as real, rest))
        else Some(Number(whole as real + Fraction(rest[1..][..m]), rest[1..][m..]))
      else Some(Number(whole as real, rest))
  }

  /** Blanks, an optional unit, blanks, and the end. */
  function ScanUnit(rest: string): Option<nat> {
    var t := rest[Span(rest, IsSpace)..];
    var letters := Span(t, IsLetter);
    var tail := t[letters..];
    if Span(tail, IsSpace) != |tail| then None
    else SuffixScale(if letters == 0 then "b" else LowerAll(t[..letters]))
  }

  /** `round(value * scale)`, refusing what the sign makes negative. */
  function ToBytes(value: real, scale: nat, negative: bool): Result<nat> {
    if negative && value > 0.0 then Err(ValueError)
    else
      var bytes := Round(Scaled(value, scale));
      if bytes < 0 then Err(ValueError) else Ok(bytes)
  }

  function Scaled(value: real, scale: nat): real { value * scale as real }

  /** A number, then a unit. */
  function ParseUnsigned(s: string, negative: bool): Result<nat> {
    var number := ScanNumber(s);
    if number.None? then Err(ValueError)
    else
      var scale := ScanUnit(number.value.rest);
      if scale.None? then Err(ValueError) else ToBytes(number.value.value, scale.value, negative)
  }

  /** Blanks, an optional sign, a number, then a unit; a bare number counts bytes. */
  function ParseSize(text: string): Result<nat> {
    var s := text[Span(text, IsSpace)..];
    if s != "" && s[0] == '-' then ParseUnsigned(s[1..], true) else ParseUnsigned(s, false)
  }

  /** A fixed-point number with two decimals, given in hundredths. */
  function Fixed2(q: nat): string {
    PrintNat(q / 100) + "." + [Digit(q % 100 / 10), Digit(q % 10)]
  }

  function UnitFor(n: nat, binary: bool): Option<(string, nat)> {
    if binary then
      if n >= TIB then Some(("TiB", TIB)) else if n >= GIB then Some(("GiB", GIB))
      else if n >= MIB then Some(("MiB", MIB)) else if n >= KIB then Some(("KiB", KIB)) else None
    else
      if n >= TB then Some(("TB", TB)) else if n >= GB then Some(("GB", GB))
      else if n >= MB then Some(("MB", MB)) else if n >= KB then Some(("KB", KB)) else None
  }

  /** Hundredths of a unit, rounded as `.2f` rounds. */
  function Hundredths(n: nat, scale: nat): (q: nat)
    requires scale > 0
  {
    HundredthsSign(n, scale);
    Round(n as real / scale as real * 100.0)
  }

  lemma HundredthsSign(n: nat, scale: nat)
    requires scale > 0
    ensures Round(n as real / scale as real * 100.0) >= 0
  {
    DivNonNegative(n as real, scale as real);
    RoundMonotone(0.0, n as real / scale as real * 100.0);
  }

  function FmtNat(n: nat, binary: bool): string {
    var unit := UnitFor(n, binary);
    if unit.Some? then Fixed2(Hundredths(n, unit.value.1)) + " " + unit.value.0 else PrintNat(n) + " B"
  }

  function FmtBytes(n: int, binary: bool): string {
    if n < 0 then "-" + FmtNat(-n, binary) else FmtNat(n, binary)
  }

  // ---------------------------------------------------------------- reading back what was printed

  lemma DropConcat(a: string, b: string)
    ensures (a + b)[|a|..] == b && (a + b)[..|a|] == a
  {}

  lemma ScanWhole(n: nat, rest: string)
    requires rest != "" && !IsDigit(rest[0]) && rest[0] != '.'
    ensures ScanNumber(PrintNat(n) + rest) == Some(Number(n as real, rest))
  {
    SpanStops(PrintNat(n), rest, IsDigit);
    DropConcat(PrintNat(n), rest);
    ReadPrinted(n);
  }

  lemma TwoDigits(q: nat)
    ensures var s := [Digit(q % 100 / 10), Digit(q % 10)];
            AllDigits(s) && ReadNat(s) == q % 100
  {
    var a, b := Digit(q % 100 / 10), Digit(q % 10);
    assert [a][..0] == "";
    assert [a] + [b] == [a, b];
    ReadAppend([a], b);
  }

  lemma ScanFixed(q: nat, rest: string)
    requires rest != "" && !IsDigit(rest[0])
    ensures ScanNumber(Fixed2(q) + rest) == Some(Number((q / 100) as real + (q % 100) as real / Pow10(2), rest))
  {
    var whole, cents := PrintNat(q / 100), [Digit(q % 100 / 10), Digit(q % 10)];
    var after := "." + cents + rest;
    var s := Fixed2(q) + rest;
    assert s == whole + after;
    SpanStops(whole, after, IsDigit);
    DropConcat(whole, after);
    assert after[1..] == cents + rest;
    TwoDigits(q);
    SpanStops(cents, rest, IsDigit);
    DropConcat(cents, rest);
    ReadPrinted(q / 100);
    ScanSplits(s, whole, cents, rest);
  }

  lemma ScanSplits(s: string, whole: string, cents: string, rest: string)
    requires whole != "" && cents != "" && AllDigits(whole) && AllDigits(cents)
    requires Span(s, IsDigit) == |whole| && s[..|whole|] == whole && s[|whole|..] == "." + cents + rest
    requires Span(cents + rest, IsDigit) == |cents|
    ensures ScanNumber(s) == Some(Number(ReadNat(whole) as real + Fraction(cents), rest))
  {
    hide ReadNat, Span, Fraction;
    var after := s[|whole|..];
    assert after[0] == '.' && after[1..] == cents + rest;
    DropConcat(cents, rest);
  }

  /** A known unit name: letters only, and its lower case has the scale it stands for. */
  predicate NamesScale(name: string, scale: nat) {
    name != "" && (forall i :: 0 <= i < |name| ==> IsLetter(name[i])) && SuffixScale(LowerAll(name)) == Some(scale)
  }

  lemma ScanNamedUnit(name: string, scale: nat)
    requires NamesScale(name, scale)
    ensures ScanUnit(" " + name) == Some(scale)
  {
    hide SuffixScale, LowerAll;
    SpanStops(" ", name, IsSpace);
    DropConcat(" ", name);
    SpanStops(name, "", IsLetter);
    assert name + "" == name && name[..|name|] == name && name[|name|..] == "";
  }

  /** What follows a number is a blank and a unit; the parse multiplies the two. */
  lemma ParseScanned(text: string, value: real, name: string, scale: nat)
    requires text != "" && IsDigit(text[0]) && value >= 0.0 && NamesScale(name, scale)
    requires ScanNumber(text) == Some(Number(value, " " + name))
    ensures ParseSize(text) == Ok(Max(0, Round(Scaled(value, scale))))
  {
    ScanNamedUnit(name, scale);
    NonNegativeBytes(value, scale);
    hide ScanNumber, ScanUnit, NamesScale, ToBytes, Round, Scaled;
    StartsAtOnce(text);
  }

  lemma NonNegativeBytes(value: real, scale: nat)
    requires value >= 0.0
    ensures ToBytes(value, scale, false) == Ok(Max(0, Round(Scaled(value, scale))))
  {
    ScaledSign(value, scale);
    hide Scaled;
    RoundMonotone(0.0, Scaled(value, scale));
  }

  lemma ScaledSign(value: real, scale: nat)
    requires value >= 0.0
    ensures Scaled(value, scale) >= 0.0
  {
    MulNonNegative(value, scale as real);
  }

  lemma StartsAtOnce(text: string)
    requires text != "" && IsDigit(text[0])
    ensures ParseSize(text) == ParseUnsigned(text, false)
  {
    hide ParseUnsigned;
    assert Span(text, IsSpace) == 0;
    assert text[0..] == text;
  }

  lemma LowerOne(a: char)
    ensures LowerAll([a]) == [Lower(a)]
  {}

  lemma LowerTwo(a: char, b: char)
    ensures LowerAll([a, b]) == [Lower(a), Lower(b)]
  {}

  lemma LowerThree(a: char, b: char, c: char)
    ensures LowerAll([a, b, c]) == [Lower(a), Lower(b), Lower(c)]
  {}

  lemma DecimalNames(binary: bool, n: nat)
    requires !binary && UnitFor(n, binary).Some?
    ensures NamesScale(UnitFor(n, binary).value.0, UnitFor(n, binary).value.1)
  {
    LowerTwo('K', 'B');
    LowerTwo('M', 'B');
    LowerTwo('G', 'B');
    LowerTwo('T', 'B');
    hide LowerAll;
  }

  lemma BinaryNames(binary: bool, n: nat)
    requires binary && UnitFor(n, binary).Some?
    ensures NamesScale(UnitFor(n, binary).value.0, UnitFor(n, binary).value.1)
  {
    LowerThree('K', 'i', 'B');
    LowerThree('M', 'i', 'B');
    LowerThree('G', 'i', 'B');
    LowerThree('T', 'i', 'B');
    hide LowerAll;
  }

  lemma ByteName()
    ensures NamesScale("B", 1)
  {
    LowerOne('B');
    hide LowerAll;
  }

  lemma HundredthsBelow(n: nat, scale: nat)
    requires scale > 0
    ensures Scaled(Hundredths(n, scale) as real / 100.0, scale) <= n as real + 0.005 * scale as real
  {
    var exact := n as real / scale as real;
    assert exact * scale as real == n as real by { DivCancels(n as real, scale as real); }
    ScaleAbove(exact, 0.005, Hundredths(n, scale) as real / 100.0, scale as real);
  }

  lemma HundredthsAbove(n: nat, scale: nat)
    requires scale > 0
    ensures n as real <= Scaled(Hundredths(n, scale) as real / 100.0, scale) + 0.005 * scale as real
  {
    var exact := n as real / scale as real;
    assert exact * scale as real == n as real by { DivCancels(n as real, scale as real); }
    ScaleAbove(Hundredths(n, scale) as real / 100.0, 0.005, exact, scale as real);
  }

  lemma SplitHundredths(q: nat)
    ensures (q / 100) as real + (q % 100) as real / Pow10(2) == q as real / 100.0
  {
    assert Pow10(2) == 100.0;
    assert q == q / 100 * 100 + q % 100;
  }

  /** How far reading back may land from `n`: half of the last printed digit, and a rounding. */
  function PrintSlack(n: nat, binary: bool): real {
    var unit := UnitFor(n, binary);
    if unit.Some? then 0.005 * unit.value.1 as real + 0.5 else 0.0
  }

  lemma PrintedWithUnitParses(n: nat, name: string, scale: nat)
    requires scale > 0 && NamesScale(name, scale)
    ensures var r := ParseSize(Fixed2(Hundredths(n, scale)) + " " + name);
            && r.Ok?
            && r.value as real <= n as real + 0.005 * scale as real + 0.5
            && n as real <= r.value as real + 0.005 * scale as real + 0.5
  {
    hide Hundredths, NamesScale, Pow10, ParseSize, Scaled, Round;
    var q := Hundredths(n, scale);
    FixedTextParses(q, name, scale);
    HundredthsBelow(n, scale);
    HundredthsAbove(n, scale);
    ScaledSign(q as real / 100.0, scale);
    RoundedNear(Scaled(q as real / 100.0, scale), n, 0.005 * scale as real);
  }

  lemma RoundedNear(x: real, n: nat, d: real)
    requires x <= n as real + d && n as real <= x + d && x >= 0.0
    ensures Max(0, Round(x)) as real <= n as real + d + 0.5 && n as real <= Max(0, Round(x)) as real + d + 0.5
  {
    RoundMonotone(0.0, x);
  }

  lemma FixedTextParses(q: nat, name: string, scale: nat)
    requires NamesScale(name, scale)
    ensures ParseSize(Fixed2(q) + " " + name) == Ok(Max(0, Round(Scaled(q as real / 100.0, scale))))
  {
    var text := Fixed2(q) + " " + name;
    ScanFixed(q, " " + name);
    SplitHundredths(q);
    assert text == Fixed2(q) + (" " + name);
    assert text[0] == PrintNat(q / 100)[0];
    hide ScanNumber, ParseSize, NamesScale, Pow10, Scaled, Round;
    ParseScanned(text, q as real / 100.0, name, scale);
  }

  lemma PrintedBytesParse(n: nat)
    ensures ParseSize(PrintNat(n) + " B") == Ok(n)
  {
    var text := PrintNat(n) + " B";
    ByteName();
    ScanWhole(n, " B");
    assert " B" == " " + "B";
    assert text[0] == PrintNat(n)[0];
    hide ScanNumber, ParseSize, NamesScale;
    ParseScanned(text, n as real, "B", 1);
    assert Scaled(n as real, 1) == n as real;
    RoundBelow(n as real, n);
  }

  /** Printing then parsing a size gives it back to within the printed precision, exactly below one unit. */
  lemma PrintedSizesParse(n: nat, binary: bool)
    ensures var r := ParseSize(FmtBytes(n, binary));
            && r.Ok?
            && r.value as real <= n as real + PrintSlack(n, binary)
            && n as real <= r.value as real + PrintSlack(n, binary)
  {
    hide ParseSize, NamesScale;
    var unit := UnitFor(n, binary);
    if unit.Some? {
      if binary { BinaryNames(binary, n); } else { DecimalNames(binary, n); }
      PrintedWithUnitParses(n, unit.value.0, unit.value.1);
    } else {
      PrintedBytesParse(n);
    }
  }

  // ---------------------------------------------------------------- token counts

  /** Three digits, zero padded. */
  function Triple(n: nat): string
    requires n < 1000
  {
    [Digit(n / 100), Digit(n / 10 % 10), Digit(n % 10)]
  }

  /** Thousands separators, as `{:,}` prints them. */
  function FmtTokens(n: nat): string {
    if n < 1000 then PrintNat(n) else FmtTokens(n / 1000) + "," + Triple(n % 1000)
  }

  function StripCommas(s: string): string {
    if s == "" then "" else StripCommas(s[..|s|-1]) + (if s[|s|-1] == ',' then "" else [s[|s|-1]])
  }

  lemma StripAppend(s: string, c: char)
    ensures StripCommas(s + [c]) == StripCommas(s) + (if c == ',' then "" else [c])
  {
    assert (s + [c])[..|s|] == s;
  }

  lemma {:induction false} StripDigits(s: string)
    requires AllDigits(s)
    ensures StripCommas(s) == s
    decreases |s|
  {
    if s != "" {
      StripDigits(s[..|s|-1]);
      assert s == s[..|s|-1] + [s[|s|-1]];
    }
  }

  lemma ReadTriple(s: string, n: nat)
    requires AllDigits(s) && n < 1000
    ensures AllDigits(s + Triple(n)) && ReadNat(s + Triple(n)) == 1000 * ReadNat(s) + n
  {
    hide AllDigits, ReadNat;
    var a, b, c := Digit(n / 100), Digit(n / 10 % 10), Digit(n % 10);
    ReadAppend(s, a);
    ReadAppend(s + [a], b);
    ReadAppend(s + [a] + [b], c);
    TripleJoins(s, n);
  }

  lemma TripleJoins(s: string, n: nat)
    requires n < 1000
    ensures s + [Digit(n / 100)] + [Digit(n / 10 % 10)] + [Digit(n % 10)] == s + Triple(n)
  {}

  lemma StripGroup(s: string, n: nat)
    requires n < 1000
    ensures StripCommas(s + "," + Triple(n)) == StripCommas(s) + Triple(n)
  {
    hide StripCommas;
    var a, b, c := Digit(n / 100), Digit(n / 10 % 10), Digit(n % 10);
    StripAppend(s, ',');
    StripAppend(s + [','], a);
    StripAppend(s + [','] + [a], b);
    StripAppend(s + [','] + [a] + [b], c);
    TripleJoins(s + [','], n);
    TripleJoins(StripCommas(s), n);
  }

  /** A printed token count uses only what the log pattern captures, and reads back exactly. */
  lemma {:induction false} PrintedTokensParse(n: nat)
    ensures forall i :: 0 <= i < |FmtTokens(n)| ==> IsDigit(FmtTokens(n)[i]) || FmtTokens(n)[i] == ','
    ensures AllDigits(StripCommas(FmtTokens(n))) && ReadNat(StripCommas(FmtTokens(n))) == n
    decreases n
  {
    if n < 1000 {
      StripDigits(PrintNat(n));
      ReadPrinted(n);
    } else {
      PrintedTokensParse(n / 1000);
      StripGroup(FmtTokens(n / 1000), n % 1000);
      ReadTriple(StripCommas(FmtTokens(n / 1000)), n % 1000);
    }
  }

  ghost predicate GroupedByThree(s: string) {
    forall i :: 0 <= i < |s| ==> (s[i] == ',' <==> (|s| - i) % 4 == 0)
  }

  /** Commas stand exactly before every third digit from the end, and no number starts with a zero but zero. */
  lemma {:induction false} CommasExactly(n: nat)
    ensures GroupedByThree(FmtTokens(n))
    ensures FmtTokens(n) != "" && (n > 0 ==> FmtTokens(n)[0] != '0')
    decreases n
  {
    hide GroupedByThree;
    if n < 1000 {
      ShortPrint(n);
      ShortIsGrouped(PrintNat(n));
    } else {
      CommasExactly(n / 1000);
      AnotherGroup(FmtTokens(n / 1000), n % 1000);
    }
  }

  lemma ShortIsGrouped(s: string)
    requires AllDigits(s) && |s| <= 3
    ensures GroupedByThree(s)
  {}

  lemma TripleDigits(d: nat)
    requires d < 1000
    ensures |Triple(d)| == 3 && AllDigits(Triple(d))
  {}

  lemma AnotherGroup(t: string, d: nat)
    requires GroupedByThree(t) && d < 1000
    ensures GroupedByThree(t + "," + Triple(d))
  {
    TripleDigits(d);
    hide Triple;
    JoinGroups(t, Triple(d));
    assert t + "," + Triple(d) == t + ("," + Triple(d));
  }

  lemma JoinGroups(t: string, g: string)
    requires GroupedByThree(t) && |g| == 3 && AllDigits(g)
    ensures GroupedByThree(t + ("," + g))
  {
    var tail := "," + g;
    var s := t + tail;
    forall i | 0 <= i < |s| ensures s[i] == ',' <==> (|s| - i) % 4 == 0 {
      if i < |t| {
        FourMore(|t| - i);
        assert s[i] == t[i];
      } else {
        assert s[i] == tail[i - |t|];
        if i > |t| { assert tail[i - |t|] == g[i - |t| - 1]; }
      }
    }
  }

  lemma FourMore(k: int)
    ensures (k + 4) % 4 == k % 4
  {}

  lemma ShortPrint(n: nat)
    ensures n < 1000 ==> |PrintNat(n)| <= 3
    ensures n > 0 ==> PrintNat(n)[0] != '0'
  {
    NoLeadingZero(n);
    if n < 1000 && n >= 10 {
      assert |PrintNat(n)| == |PrintNat(n / 10)| + 1;
      if n >= 100 { assert |PrintNat(n / 10)| == |PrintNat(n / 100)| + 1; }
    }
  }

  lemma {:induction false} NoLeadingZero(n: nat)
    ensures n > 0 ==> PrintNat(n)[0] != '0'
    decreases n
  {
    if n >= 10 {
      NoLeadingZero(n / 10);
    } else if n > 0 {
      assert DigitValue(PrintNat(n)[0]) == n;
    }
  }

  // ---------------------------------------------------------------- what is printed and what is read

  /** The known units, in any case: decimal ones step by 1000, binary ones by 1024. */
  lemma ScalesExactly(suffix: string)
    ensures SuffixScale("b") == Some(1)
    ensures SuffixScale("kb") == Some(1000) && SuffixScale("mb") == Some(1000 * 1000)
    ensures SuffixScale("gb") == Some(1000 * 1000 * 1000) && SuffixScale("tb") == Some(1000 * 1000 * 1000 * 1000)
    ensures SuffixScale("kib") == Some(1024) && SuffixScale("mib") == Some(1024 * 1024)
    ensures SuffixScale("gib") == Some(1024 * 1024 * 1024) && SuffixScale("tib") == Some(1024 * 1024 * 1024 * 1024)
    ensures SuffixScale(suffix).Some? ==> suffix in ["b", "kb", "mb", "gb", "tb", "kib", "mib", "gib", "tib"]
  {
    assert "kb" != "b" && "mb" != "b" && "gb" != "b" && "tb" != "b";
    assert "kb"[0] == 'k' && "mb"[0] == 'm' && "gb"[0] == 'g' && "tb"[0] == 't';
    assert "kib"[0] == 'k' && "mib"[0] == 'm' && "gib"[0] == 'g' && "tib"[0] == 't';
    var known := ["b", "kb", "mb", "gb", "tb", "kib", "mib", "gib", "tib"];
    assert known[0] == "b" && known[1] == "kb" && known[2] == "mb" && known[3] == "gb" && known[4] == "tb";
    assert known[5] == "kib" && known[6] == "mib" && known[7] == "gib" && known[8] == "tib";
  }

  /** The largest unit the count reaches, and a count of hundredths of it to the nearest. */
  lemma PrintsLargestUnit(n: nat, binary: bool)
    ensures var step := if binary then 1024 else 1000;
            match UnitFor(n, binary)
            case None => n < step && FmtBytes(n, binary) == PrintNat(n) + " B"
            case Some((name, scale)) =>
              && NamesScale(name, scale)
              && n >= scale && (n < step * scale || LowerAll(name) == (if binary then "tib" else "tb"))
              && (|name| == 3 <==> binary)
              && exists q: nat :: FmtBytes(n, binary) == Fixed2(q) + " " + name && Nearest(n, scale, q)
  {
    var unit := UnitFor(n, binary);
    if unit.Some? {
      if binary { BinaryNames(binary, n); LowerThree('T', 'i', 'B'); } else { DecimalNames(binary, n); LowerTwo('T', 'B'); }
      NearestHundredth(n, unit.value.1);
      hide Nearest, NamesScale, Hundredths, Fixed2;
      assert FmtBytes(n, binary) == Fixed2(Hundredths(n, unit.value.1)) + " " + unit.value.0;
    }
  }

  /** `q` hundredths of the scale are within half of one of the count. */
  ghost predicate Nearest(n: nat, scale: nat, q: nat) {
    200 * n - scale <= 2 * (q * scale) <= 200 * n + scale
  }

  lemma NearestHundredth(n: nat, scale: nat)
    requires scale > 0
    ensures Nearest(n, scale, Hundredths(n, scale))
  {
    HundredthsBelow(n, scale);
    HundredthsAbove(n, scale);
    var q := Hundredths(n, scale);
    hide Hundredths;
    assert Scaled(q as real / 100.0, scale) * 100.0 == (q * scale) as real;
  }

  /** Negative counts are the positive ones with a sign. */
  lemma NegativesMirror(n: int, binary: bool)
    requires n > 0
    ensures FmtBytes(-n, binary) == "-" + FmtBytes(n, binary)
  {}

  predicate AllBlank(s: string) { forall i :: 0 <= i < |s| ==> IsSpace(s[i]) }

  predicate AllLetters(s: string) { forall i :: 0 <= i < |s| ==> IsLetter(s[i]) }

  /** Digits, and a point with more digits when there is a fraction. */
  function Numeral(whole: string, frac: string): string { whole + if frac == "" then "" else "." + frac }

  function NumeralValue(whole: string, frac: string): real
    requires AllDigits(whole) && AllDigits(frac)
  {
    ReadNat(whole) as real + Fraction(frac)
  }

  /** A written size: blanks, a sign, a numeral, blanks, a unit or none, blanks. */
  datatype Written = Written(lead: string, negative: bool, whole: string, frac: string, gap: string, suffix: string, trail: string) {
    predicate Valid() {
      && AllBlank(lead) && AllBlank(gap) && AllBlank(trail) && AllLetters(suffix)
      && whole != "" && AllDigits(whole) && AllDigits(frac) && (suffix == "" ==> trail == "")
    }

    function Unit(): string { gap + suffix + trail }

    function Body(): string { Numeral(whole, frac) + Unit() }

    function Text(): string { lead + ((if negative then "-" else "") + Body()) }

    /** A missing unit counts bytes. */
    function Scale(): Option<nat> { SuffixScale(if suffix == "" then "b" else LowerAll(suffix)) }
  }

  lemma UnitStart(w: Written)
    requires w.Valid()
    ensures w.Unit() == "" || (!IsDigit(w.Unit()[0]) && w.Unit()[0] != '.')
  {
    if w.gap != "" {
      assert w.Unit()[0] == w.gap[0];
    } else if w.suffix != "" {
      assert w.Unit()[0] == w.suffix[0];
    }
  }

  lemma ScanWritten(w: Written)
    requires w.Valid()
    ensures ScanNumber(w.Body()) == Some(Number(NumeralValue(w.whole, w.frac), w.Unit()))
  {
    hide ScanNumber, Fraction, Written.Unit, ReadNat, Numeral, NumeralValue, AllDigits, AllBlank, AllLetters, IsDigit;
    UnitStart(w);
    NumeralJoins(w.whole, w.frac, w.Unit());
    ValueOf(w.whole, w.frac);
    if w.frac == "" { ScanPlain(w.whole, w.Unit()); } else { ScanPointed(w.whole, w.frac, w.Unit()); }
  }

  lemma ValueOf(whole: string, frac: string)
    requires AllDigits(whole) && AllDigits(frac)
    ensures NumeralValue(whole, frac) == ReadNat(whole) as real + Fraction(frac)
    ensures frac == "" ==> NumeralValue(whole, frac) == ReadNat(whole) as real
  {
    if frac == "" { NoFraction(frac); }
  }

  lemma NumeralJoins(whole: string, frac: string, rest: string)
    ensures Numeral(whole, frac) + rest == if frac == "" then whole + rest else whole + ("." + frac + rest)
  {}

  lemma NoFraction(frac: string)
    requires frac == ""
    ensures Fraction(frac) == 0.0
  {
    ZeroOver(Pow10(|frac|));
  }

  lemma ScanPlain(whole: string, rest: string)
    requires whole != "" && AllDigits(whole) && (rest == "" || (!IsDigit(rest[0]) && rest[0] != '.'))
    ensures ScanNumber(whole + rest) == Some(Number(ReadNat(whole) as real, rest))
  {
    hide ReadNat;
    SpanStops(whole, rest, IsDigit);
    DropConcat(whole, rest);
  }

  lemma ScanPointed(whole: string, frac: string, rest: string)
    requires whole != "" && frac != "" && AllDigits(whole) && AllDigits(frac) && (rest == "" || !IsDigit(rest[0]))
    ensures ScanNumber(whole + ("." + frac + rest))
            == Some(Number(ReadNat(whole) as real + Fraction(frac), rest))
  {
    hide ReadNat, Fraction, ScanNumber;
    var after := "." + frac + rest;
    SpanStops(whole, after, IsDigit);
    DropConcat(whole, after);
    SpanStops(frac, rest, IsDigit);
    ScanSplits(whole + after, whole, frac, rest);
  }

  lemma ZeroOver(d: real)
    requires d >= 1.0
    ensures 0.0 / d == 0.0
  {}

  lemma ScanWrittenUnit(w: Written)
    requires w.Valid()
    ensures ScanUnit(w.Unit()) == w.Scale()
  {
    hide SuffixScale, LowerAll;
    var t := w.suffix + w.trail;
    assert w.Unit() == w.gap + t;
    SpanStops(w.gap, t, IsSpace);
    DropConcat(w.gap, t);
    SpanStops(w.suffix, w.trail, IsLetter);
    DropConcat(w.suffix, w.trail);
    SpanStops(w.trail, "", IsSpace);
    assert w.trail + "" == w.trail;
  }

  /** Every written size with a known unit is read for what it says; below zero it is refused. */
  lemma WrittenParses(w: Written)
    requires w.Valid()
    ensures ParseSize(w.Text()) ==
              if w.Scale() == None || (w.negative && NumeralValue(w.whole, w.frac) > 0.0) then Err(ValueError)
              else Ok(WholeBytes(NumeralValue(w.whole, w.frac), w.Scale().value))
  {
    hide ScanNumber, ScanUnit, Written.Scale, NumeralValue, WholeBytes, ToBytes, Written.Unit, Written.Body, ParseSize,
      ParseUnsigned, AllDigits, AllBlank, AllLetters, IsDigit;
    BodyStarts(w);
    ScanWritten(w);
    ScanWrittenUnit(w);
    ValueSign(w);
    LeadSkipped(w.lead, w.Body(), w.negative);
    ReadsUnsigned(w.Body(), w.negative, NumeralValue(w.whole, w.frac), w.Unit(), w.Scale());
    if w.Scale().Some? { SignedBytes(NumeralValue(w.whole, w.frac), w.Scale().value, w.negative); }
  }

  lemma BodyStarts(w: Written)
    requires w.Valid()
    ensures w.Body() != "" && IsDigit(w.Body()[0])
  {
    NumeralJoins(w.whole, w.frac, w.Unit());
    hide Numeral, Written.Unit;
  }

  lemma ReadsUnsigned(body: string, negative: bool, value: real, rest: string, scale: Option<nat>)
    requires ScanNumber(body) == Some(Number(value, rest)) && ScanUnit(rest) == scale
    ensures ParseUnsigned(body, negative) == if scale.None? then Err(ValueError) else ToBytes(value, scale.value, negative)
  {
    hide ScanNumber, ScanUnit, ToBytes;
  }

  lemma LeadSkipped(lead: string, body: string, negative: bool)
    requires AllBlank(lead) && body != "" && IsDigit(body[0])
    ensures ParseSize(lead + ((if negative then "-" else "") + body)) == ParseUnsigned(body, negative)
  {
    hide ParseUnsigned;
    var rest := (if negative then "-" else "") + body;
    SpanStops(lead, rest, IsSpace);
    DropConcat(lead, rest);
    assert negative ==> rest[1..] == body;
    assert !negative ==> rest == body;
  }

  /** A size in bytes, to the nearest and never below zero. */
  function WholeBytes(value: real, scale: nat): nat { Max(0, Round(value * scale as real)) }

  lemma SignedBytes(value: real, scale: nat, negative: bool)
    requires value >= 0.0
    ensures ToBytes(value, scale, negative) ==
              if negative && value > 0.0 then Err(ValueError) else Ok(WholeBytes(value, scale))
  {
    ScaledSign(value, scale);
    RoundMonotone(0.0, Scaled(value, scale));
  }

  lemma ValueSign(w: Written)
    requires w.Valid()
    ensures NumeralValue(w.whole, w.frac) >= 0.0
  {
    DivNonNegative(ReadNat(w.frac) as real, Pow10(|w.frac|));
  }

  /** Nothing else is read: whatever parses is a written size. */
  lemma ParsedIsWritten(text: string) returns (w: Written)
    requires ParseSize(text).Ok?
    ensures w.Valid() && w.Text() == text && w.Scale().Some?
  {
    var lead, negative, body := ScannedSign(text);
    hide ScanNumber, ScanUnit, ParseSize, SuffixScale, LowerAll, ToBytes;
    var whole, frac := ScannedNumeral(body);
    var unit := ScanNumber(body).value.rest;
    var gap, suffix, trail := ScannedUnit(unit);
    w := Written(lead, negative, whole, frac, gap, suffix, trail);
    TextJoins(w, (if frac != "" then "." + frac else "") + unit, unit, body, (if negative then "-" else "") + body);
  }

  lemma ScannedSign(text: string) returns (lead: string, negative: bool, body: string)
    requires ParseSize(text).Ok?
    ensures AllBlank(lead) && text == lead + ((if negative then "-" else "") + body)
    ensures ParseUnsigned(body, negative).Ok?
  {
    hide ParseUnsigned;
    lead := text[..Span(text, IsSpace)];
    var s := text[|lead|..];
    negative := s != "" && s[0] == '-';
    body := if negative then s[1..] else s;
    assert s == (if negative then "-" else "") + body;
  }

  lemma ScannedNumeral(body: string) returns (whole: string, frac: string)
    requires ScanNumber(body).Some?
    ensures whole != "" && AllDigits(whole) && AllDigits(frac)
    ensures body == whole + ((if frac != "" then "." + frac else "") + ScanNumber(body).value.rest)
  {
    hide ReadNat, Fraction;
    var n := Span(body, IsDigit);
    var rest := body[n..];
    whole, frac := body[..n], "";
    if rest != "" && rest[0] == '.' {
      var m := Span(rest[1..], IsDigit);
      if m > 0 {
        frac := rest[1..][..m];
        assert rest == "." + frac + rest[1..][m..];
      }
    }
  }

  lemma ScannedUnit(unit: string) returns (gap: string, suffix: string, trail: string)
    requires ScanUnit(unit).Some?
    ensures unit == gap + (suffix + trail)
    ensures AllBlank(gap) && AllLetters(suffix) && AllBlank(trail) && (suffix == "" ==> trail == "")
    ensures SuffixScale(if suffix == "" then "b" else LowerAll(suffix)) == ScanUnit(unit)
  {
    hide SuffixScale, LowerAll;
    gap := unit[..Span(unit, IsSpace)];
    var t := unit[|gap|..];
    suffix := t[..Span(t, IsLetter)];
    trail := t[|suffix|..];
  }

  lemma TextJoins(w: Written, rest: string, unit: string, body: string, s: string)
    requires unit == w.gap + (w.suffix + w.trail)
    requires rest == (if w.frac != "" then "." + w.frac else "") + unit
    requires body == w.whole + rest && s == (if w.negative then "-" else "") + body
    ensures w.Text() == w.lead + s
  {
    assert w.Unit() == unit;
    NumeralJoins(w.whole, w.frac, unit);
    hide Numeral;
    assert w.Body() == body;
  }

  /** A text is a size exactly when it is written as one, in a known unit, and not below zero. */
  lemma ParsesExactly(text: string)
    ensures ParseSize(text).Ok? <==>
              exists w: Written :: w.Valid() && w.Text() == text && w.Scale().Some?
                                   && !(w.negative && NumeralValue(w.whole, w.frac) > 0.0)
  {
    if ParseSize(text).Ok? {
      var w := ParsedIsWritten(text);
      WrittenParses(w);
    } else if exists w: Written :: w.Valid() && w.Text() == text && w.Scale().Some?
                                   && !(w.negative && NumeralValue(w.whole, w.frac) > 0.0) {
      var w: Written :| w.Valid() && w.Text() == text && w.Scale().Some?
                        && !(w.negative && NumeralValue(w.whole, w.frac) > 0.0);
      WrittenParses(w);
    }
  }
}
