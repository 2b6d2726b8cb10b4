/**
 * The two ISO-8601 text forms the serde writes: dates as "yyyy-MM-dd" (10 characters)
 * and timestamps as "yyyy-MM-dd'T'HH:mm:ss.SSS" (23 characters), each field a
 * zero-padded decimal number. Calendar values are taken as already broken down into
 * local fields; the time-zone conversion done by the Java formatter is not modelled.
 */
module IsoFormat {
  import opened Wrappers

  const DATE_FORMAT: string := "yyyy-MM-dd"
  const TIMESTAMP_FORMAT: string := "yyyy-MM-dd'T'HH:mm:ss.SSS"

  /** Number of characters a formatted date and a formatted timestamp take. */
  const DATE_WIDTH: nat := 10
  const TIMESTAMP_WIDTH: nat := 23

  type Year = y: int | 1 <= y <= 9999 witness 1
  type Month = m: int | 1 <= m <= 12 witness 1
  type Day = d: int | 1 <= d <= 31 witness 1
  type Hour = h: int | 0 <= h <= 23
  type Minute = m: int | 0 <= m <= 59
  type Second = s: int | 0 <= s <= 59
  type Millis = s: int | 0 <= s <= 999

  datatype Date = Date(year: Year, month: Month, day: Day)

  datatype Time = Time(hour: Hour, minute: Minute, second: Second, millis: Millis)

  datatype Timestamp = Timestamp(date: Date, time: Time)

  function Pow10(w: nat): (p: nat)
    ensures p >= 1
  {
    if w == 0 then 1 else 10 * Pow10(w - 1)
  }

  predicate IsDigit(c: char) {
    '0' <= c <= '9'
  }

  /** Every character is 7-bit ASCII, so each is written as one byte. */
  predicate Ascii(s: string) {
    forall k :: 0 <= k < |s| ==> (s[k] as int) < 128
  }

  predicate AllDigits(s: string) {
    forall k :: 0 <= k < |s| ==> IsDigit(s[k])
  }

  /** n written in decimal with exactly w digits, left-padded with '0'. */
  function Digits(n: nat, w: nat): (r: string)
    requires n < Pow10(w)
    ensures |r| == w && AllDigits(r) && Ascii(r)
  {
    if w == 0 then [] else Digits(n / 10, w - 1) + [(48 + n % 10) as char]
  }

  /** The value of a string of decimal digits. */
  function ParseDigits(s: string): (n: nat)
    requires AllDigits(s)
    ensures n < Pow10(|s|)
  {
    if s == [] then 0 else ParseDigits(s[..|s| - 1]) * 10 + (s[|s| - 1] as int - 48)
  }

  lemma {:induction false} DigitsRoundTrip(n: nat, w: nat)
    requires n < Pow10(w)
    ensures ParseDigits(Digits(n, w)) == n
  {
    if w > 0 {
      var r := Digits(n, w);
      assert r[..w - 1] == Digits(n / 10, w - 1);
      DigitsRoundTrip(n / 10, w - 1);
    }
  }

  lemma {:induction false} ParseRoundTrip(s: string)
    requires AllDigits(s)
    ensures Digits(ParseDigits(s), |s|) == s
  {
    if s != [] {
      var n := |s|;
      var x := ParseDigits(s);
      assert x / 10 == ParseDigits(s[..n - 1]) && x % 10 == s[n - 1] as int - 48;
      ParseRoundTrip(s[..n - 1]);
      assert s == s[..n - 1] + [s[n - 1]];
    }
  }

  /** The date as "yyyy-MM-dd". */
  function FormatDate(d: Date): (r: string)
    ensures |r| == DATE_WIDTH && Ascii(r)
    ensures r[4] == '-' && r[7] == '-'
  {
    Digits(d.year, 4) + "-" + Digits(d.month, 2) + "-" + Digits(d.day, 2)
  }

  /** The time of day part of a timestamp, "'T'HH:mm:ss.SSS". */
  function FormatTime(c: Time): (r: string)
    ensures |r| == TIMESTAMP_WIDTH - DATE_WIDTH && Ascii(r)
    ensures r[0] == 'T' && r[3] == ':' && r[6] == ':' && r[9] == '.'
  {
    "T" + Digits(c.hour, 2) + ":" + Digits(c.minute, 2) + ":" + Digits(c.second, 2) + "." + Digits(c.millis, 3)
  }

  /** The timestamp as "yyyy-MM-dd'T'HH:mm:ss.SSS". */
  function FormatTimestamp(t: Timestamp): (r: string)
    ensures |r| == TIMESTAMP_WIDTH && Ascii(r)
    ensures r[..DATE_WIDTH] == FormatDate(t.date)
    ensures r[10] == 'T' && r[13] == ':' && r[16] == ':' && r[19] == '.'
  {
    FormatDate(t.date) + FormatTime(t.time)
  }

  /**
   * The value a numeric pattern letter of SimpleDateFormat stands for: y year, M month,
   * d day, H hour, m minute, s second, S millisecond. None for every other letter.
   */
  function FieldOf(c: char, t: Timestamp): Option<nat> {
    match c
    case 'y' => Some(t.date.year)
    case 'M' => Some(t.date.month)
    case 'd' => Some(t.date.day)
    case 'H' => Some(t.time.hour)
    case 'm' => Some(t.time.minute)
    case 's' => Some(t.time.second)
    case 'S' => Some(t.time.millis)
    case _ => None
  }

  /** How many characters p starts with that are all c. */
  function RunLength(p: string, c: char): (n: nat)
    ensures n <= |p| && forall k :: 0 <= k < n ==> p[k] == c
    ensures n == |p| || p[n] != c
  {
    if p == [] || p[0] != c then 0 else 1 + RunLength(p[1..], c)
  }

  /** How many characters q starts with before its first quote. */
  function QuoteEnd(q: string): (n: nat)
    ensures n <= |q| && forall k :: 0 <= k < n ==> q[k] != '\''
    ensures n == |q| || q[n] == '\''
  {
    if q == [] || q[0] == '\'' then 0 else 1 + QuoteEnd(q[1..])
  }

  /** The number of decimal digits of v. */
  function DecimalWidth(v: nat): (w: nat)
    ensures 1 <= w && v < Pow10(w)
  {
    if v < 10 then 1 else DecimalWidth(v / 10) + 1
  }

  /** v in decimal with at least n digits, zero-padded: how the formatter writes a number. */
  function Padded(v: nat, n: nat): (r: string)
    ensures AllDigits(r) && ParseDigits(r) == v
    ensures v < Pow10(n) ==> |r| == n
  {
    var w := if v < Pow10(n) then n else DecimalWidth(v);
    DigitsRoundTrip(v, w);
    Digits(v, w)
  }

  predicate IsLetter(c: char) {
    'a' <= c <= 'z' || 'A' <= c <= 'Z'
  }

  /**
   * A run of n pattern letters c written for t: its field as a number, a two-letter
   * year being the year modulo 100. None for a letter the formatter refuses or one it
   * writes as text (MMM and longer for the month name).
   */
  function LetterToken(c: char, n: nat, t: Timestamp): (r: Option<(string, nat)>)
    ensures r.Some? ==> r.value.1 == n
  {
    match FieldOf(c, t)
    case None => None
    case Some(v) =>
      if c == 'M' && n >= 3 then None
      else if c == 'y' && n == 2 then Some((Digits(v % 100, 2), 2))
      else Some((Padded(v, n), n))
  }

  /** Quoted text, q being what follows the opening quote: "''" is a quote itself. */
  function QuotedToken(q: string): (r: Option<(string, nat)>)
    ensures r.Some? ==> 0 < r.value.1 <= |q| + 1
  {
    var n := QuoteEnd(q);
    if n == |q| then None
    else if n == 0 then Some(("'", 2))
    else Some((q[..n], n + 2))
  }

  /**
   * The first token of the pattern p written for t, with the number of pattern
   * characters it takes: a run of one letter, a quoted text, or any other character,
   * which is copied. None where the formatter refuses the pattern.
   */
  function Token(p: string, t: Timestamp): (r: Option<(string, nat)>)
    requires p != []
    ensures r.Some? ==> 0 < r.value.1 <= |p|
  {
    if p[0] == '\'' then QuotedToken(p[1..])
    else if IsLetter(p[0]) then LetterToken(p[0], RunLength(p, p[0]), t)
    else Some(([p[0]], 1))
  }

  /** The text SimpleDateFormat writes for t with the pattern p, token by token. */
  function Render(p: string, t: Timestamp): Option<string>
    decreases |p|
  {
    if p == [] then Some([])
    else
      match Token(p, t)
      case None => None
      case Some((s, k)) =>
        match Render(p[k..], t)
        case None => None
        case Some(rest) => Some(s + rest)
  }

  lemma RenderStep(p: string, t: Timestamp, s: string, k: nat, rest: string)
    requires p != [] && Token(p, t) == Some((s, k)) && Render(p[k..], t) == Some(rest)
    ensures Render(p, t) == Some(s + rest)
  {
  }

  /** Concatenation regrouped from the right to the left, for five pieces and a tail. */
  lemma Regroup5(a: string, b: string, c: string, d: string, e: string, f: string)
    ensures a + (b + (c + (d + (e + f)))) == a + b + c + d + e + f
  {
    assert d + (e + f) == d + e + f;
    assert c + (d + e + f) == c + d + e + f;
    assert b + (c + d + e + f) == b + c + d + e + f;
    assert a + (b + c + d + e + f) == a + b + c + d + e + f;
  }

  /** Concatenation regrouped from the right to the left, for eight pieces. */
  lemma Regroup8(a: string, b: string, c: string, d: string, e: string, f: string, g: string, h: string)
    ensures a + (b + (c + (d + (e + (f + (g + h)))))) == a + b + c + d + e + f + g + h
  {
    Regroup5(d, e, f, g, h, []);
    assert d + e + f + g + h + [] == d + e + f + g + h;
    assert e + (f + (g + h)) == e + (f + (g + (h + [])));
    assert c + (d + e + f + g + h) == c + d + e + f + g + h;
    assert b + (c + d + e + f + g + h) == b + c + d + e + f + g + h;
    assert a + (b + c + d + e + f + g + h) == a + b + c + d + e + f + g + h;
  }

  /** A run of two c's, then something else. */
  lemma RunOfTwo(p: string, c: char)
    requires |p| >= 2 && p[0] == c && p[1] == c && (|p| == 2 || p[2] != c)
    ensures RunLength(p, c) == 2
  {
    assert p[1..][1..] == p[2..];
  }

  /** A run of three c's, then something else. */
  lemma RunOfThree(p: string, c: char)
    requires |p| >= 3 && p[0] == c && p[1] == c && p[2] == c && (|p| == 3 || p[3] != c)
    ensures RunLength(p, c) == 3
  {
    RunOfTwo(p[1..], c);
  }

  /** A run of four c's, then something else. */
  lemma RunOfFour(p: string, c: char)
    requires |p| >= 4 && p[0] == c && p[1] == c && p[2] == c && p[3] == c && (|p| == 4 || p[4] != c)
    ensures RunLength(p, c) == 4
  {
    RunOfThree(p[1..], c);
  }

  /** A run of n letters c, then something else, is taken as one token: c's field as n digits. */
  lemma LetterStep(p: string, t: Timestamp, n: nat)
    requires 0 < n <= |p| && FieldOf(p[0], t).Some?
    requires (p[0] != 'M' || n < 3) && (p[0] != 'y' || n != 2)
    requires RunLength(p, p[0]) == n && FieldOf(p[0], t).value < Pow10(n)
    ensures Token(p, t) == Some((Digits(FieldOf(p[0], t).value, n), n))
  {
    var v := FieldOf(p[0], t).value;
    assert Padded(v, n) == Digits(v, n);
    assert IsLetter(p[0]);
  }

  /** A run of n letters c, then something else, is c's field as n digits, then the rest. */
  lemma NumberThen(p: string, t: Timestamp, n: nat, rest: string)
    requires 0 < n <= |p| && FieldOf(p[0], t).Some?
    requires (p[0] != 'M' || n < 3) && (p[0] != 'y' || n != 2)
    requires RunLength(p, p[0]) == n
    requires FieldOf(p[0], t).value < Pow10(n) && Render(p[n..], t) == Some(rest)
    ensures Render(p, t) == Some(Digits(FieldOf(p[0], t).value, n) + rest)
  {
    LetterStep(p, t, n);
    RenderStep(p, t, Digits(FieldOf(p[0], t).value, n), n, rest);
  }

  /** A character that is neither a letter nor a quote is copied. */
  lemma LiteralThen(p: string, t: Timestamp, rest: string)
    requires p != [] && p[0] != '\'' && !IsLetter(p[0])
    requires Render(p[1..], t) == Some(rest)
    ensures Render(p, t) == Some([p[0]] + rest)
  {
    RenderStep(p, t, [p[0]], 1, rest);
  }

  /** A separator, then a run of n letters, is the separator, then the field as n digits, then the rest. */
  lemma SeparatedThen(p: string, t: Timestamp, n: nat, rest: string)
    requires 0 < n < |p| && p[0] != '\'' && !IsLetter(p[0]) && FieldOf(p[1], t).Some?
    requires (p[1] != 'M' || n < 3) && (p[1] != 'y' || n != 2)
    requires RunLength(p[1..], p[1]) == n
    requires FieldOf(p[1], t).value < Pow10(n) && Render(p[n + 1..], t) == Some(rest)
    ensures Render(p, t) == Some([p[0]] + (Digits(FieldOf(p[1], t).value, n) + rest))
  {
    var q := p[1..];
    assert q[n..] == p[n + 1..];
    NumberThen(q, t, n, rest);
    LiteralThen(p, t, Digits(FieldOf(p[1], t).value, n) + rest);
  }

  /** ".SSS" at the end of a pattern is the milliseconds. */
  lemma MillisPattern(p: string, t: Timestamp)
    requires |p| == 4 && p[0] == '.' && p[1] == 'S' && p[2] == 'S' && p[3] == 'S'
    ensures Render(p, t) == Some("." + (Digits(t.time.millis, 3) + []))
  {
    assert Pow10(3) == 1000;
    RunOfThree(p[1..], 'S');
    assert p[4..] == [];
    SeparatedThen(p, t, 3, []);
  }

  /** ":ss" followed by ".SSS" at the end of a pattern. */
  lemma SecondsPattern(p: string, t: Timestamp)
    requires |p| == 7 && p[0] == ':' && p[1] == 's' && p[2] == 's'
    requires p[3] == '.' && p[4] == 'S' && p[5] == 'S' && p[6] == 'S'
    ensures Render(p, t) == Some(":" + (Digits(t.time.second, 2) + ("." + (Digits(t.time.millis, 3) + []))))
  {
    assert Pow10(2) == 100;
    MillisPattern(p[3..], t);
    RunOfTwo(p[1..], 's');
    SeparatedThen(p, t, 2, "." + (Digits(t.time.millis, 3) + []));
  }

  /** ":mm:ss.SSS" at the end of a pattern. */
  lemma MinutesPattern(p: string, t: Timestamp)
    requires |p| == 10 && p[0] == ':' && p[1] == 'm' && p[2] == 'm' && p[3] == ':' && p[4] == 's'
    requires p[5] == 's' && p[6] == '.' && p[7] == 'S' && p[8] == 'S' && p[9] == 'S'
    ensures Render(p, t) == Some(":" + (Digits(t.time.minute, 2) + (":" + (Digits(t.time.second, 2)
                                 + ("." + (Digits(t.time.millis, 3) + []))))))
  {
    assert Pow10(2) == 100;
    SecondsPattern(p[3..], t);
    RunOfTwo(p[1..], 'm');
    SeparatedThen(p, t, 2, ":" + (Digits(t.time.second, 2) + ("." + (Digits(t.time.millis, 3) + []))));
  }

  /** The time-of-day half of TIMESTAMP_FORMAT, from "HH" on. */
  lemma ClockPattern(p: string, t: Timestamp)
    requires p == "HH:mm:ss.SSS"
    ensures Render(p, t) == Some(Digits(t.time.hour, 2) + (":" + (Digits(t.time.minute, 2)
                                 + (":" + (Digits(t.time.second, 2) + ("." + (Digits(t.time.millis, 3) + [])))))))
  {
    var c := t.time;
    assert Pow10(2) == 100;
    MinutesPattern(p[2..], t);
    RunOfTwo(p, 'H');
    NumberThen(p, t, 2, ":" + (Digits(c.minute, 2) + (":" + (Digits(c.second, 2) + ("." + (Digits(c.millis, 3) + []))))));
  }

  /** One character between quotes is that character, then the rest. */
  lemma QuotedThen(p: string, t: Timestamp, rest: string)
    requires |p| >= 3 && p[0] == '\'' && p[1] != '\'' && p[2] == '\''
    requires Render(p[3..], t) == Some(rest)
    ensures Render(p, t) == Some([p[1]] + rest)
  {
    var q := p[1..];
    assert QuoteEnd(q[1..]) == 0;
    assert QuoteEnd(q) == 1;
    assert QuotedToken(q) == Some((q[..1], 3));
    assert q[..1] == [p[1]];
    RenderStep(p, t, [p[1]], 3, rest);
  }

  /** The time-of-day half of TIMESTAMP_FORMAT is written as FormatTime. */
  lemma TimePatternRenders(p: string, t: Timestamp)
    requires p == TIMESTAMP_FORMAT[10..]
    ensures Render(p, t) == Some(FormatTime(t.time))
  {
    var c := t.time;
    assert p == "'T'HH:mm:ss.SSS";
    ClockPattern(p[3..], t);
    var rest := Digits(c.hour, 2) + (":" + (Digits(c.minute, 2)
                + (":" + (Digits(c.second, 2) + ("." + (Digits(c.millis, 3) + []))))));
    QuotedThen(p, t, rest);
    assert Digits(c.millis, 3) + [] == Digits(c.millis, 3);
    Regroup8("T", Digits(c.hour, 2), ":", Digits(c.minute, 2), ":", Digits(c.second, 2), ".", Digits(c.millis, 3));
  }

  /** "-MM-dd", then anything but 'd', is the month and the day, then the rest. */
  lemma MonthDayThen(p: string, t: Timestamp, rest: string)
    requires |p| >= 6 && p[0] == '-' && p[1] == 'M' && p[2] == 'M' && p[3] == '-' && p[4] == 'd' && p[5] == 'd'
    requires |p| == 6 || p[6] != 'd'
    requires Render(p[6..], t) == Some(rest)
    ensures Render(p, t) == Some("-" + (Digits(t.date.month, 2) + ("-" + (Digits(t.date.day, 2) + rest))))
  {
    assert Pow10(2) == 100;
    var q := p[3..];
    assert q[3..] == p[6..];
    RunOfTwo(q[1..], 'd');
    SeparatedThen(q, t, 2, rest);
    RunOfTwo(p[1..], 'M');
    SeparatedThen(p, t, 2, "-" + (Digits(t.date.day, 2) + rest));
  }

  /** A pattern that starts "yyyy-MM-dd", then anything but 'd', is the date's text, then the rest's. */
  lemma DatePatternThen(p: string, t: Timestamp, rest: string)
    requires |p| >= 10 && p[0] == 'y' && p[1] == 'y' && p[2] == 'y' && p[3] == 'y' && p[4] == '-'
    requires p[5] == 'M' && p[6] == 'M' && p[7] == '-' && p[8] == 'd' && p[9] == 'd'
    requires |p| == 10 || p[10] != 'd'
    requires Render(p[10..], t) == Some(rest)
    ensures Render(p, t) == Some(FormatDate(t.date) + rest)
  {
    var d := t.date;
    MonthDayThen(p[4..], t, rest);
    var r2 := "-" + (Digits(d.month, 2) + ("-" + (Digits(d.day, 2) + rest)));
    assert Pow10(4) == 10000;
    RunOfFour(p, 'y');
    NumberThen(p, t, 4, r2);
    Regroup5(Digits(d.year, 4), "-", Digits(d.month, 2), "-", Digits(d.day, 2), rest);
  }

  /** DATE_FORMAT, as the formatter writes it, is FormatDate. */
  lemma DatePatternRenders(t: Timestamp)
    ensures Render(DATE_FORMAT, t) == Some(FormatDate(t.date))
  {
    var p := DATE_FORMAT;
    assert p[0] == 'y' && p[1] == 'y' && p[2] == 'y' && p[3] == 'y' && p[4] == '-';
    assert p[5] == 'M' && p[6] == 'M' && p[7] == '-' && p[8] == 'd' && p[9] == 'd';
    assert |p| == 10 && p[10..] == [];
    DatePatternThen(p, t, []);
    assert FormatDate(t.date) + [] == FormatDate(t.date);
  }

  /** TIMESTAMP_FORMAT, as the formatter writes it, is FormatTimestamp. */
  lemma TimestampPatternRenders(t: Timestamp)
    ensures Render(TIMESTAMP_FORMAT, t) == Some(FormatTimestamp(t))
  {
    var p := TIMESTAMP_FORMAT;
    assert p[0] == 'y' && p[1] == 'y' && p[2] == 'y' && p[3] == 'y' && p[4] == '-';
    assert p[5] == 'M' && p[6] == 'M' && p[7] == '-' && p[8] == 'd' && p[9] == 'd';
    assert p[10] == '\'';
    TimePatternRenders(p[10..], t);
    DatePatternThen(p, t, FormatTime(t.time));
  }

  /** Reads a "yyyy-MM-dd" string back into a date; None for anything else. */
  function ParseDate(s: string): (r: Option<Date>)
    ensures r.Some? ==> |s| == DATE_WIDTH
  {
    if |s| == DATE_WIDTH && s[4] == '-' && s[7] == '-'
       && AllDigits(s[..4]) && AllDigits(s[5..7]) && AllDigits(s[8..])
    then
      var y, m, d := ParseDigits(s[..4]), ParseDigits(s[5..7]), ParseDigits(s[8..]);
      if 1 <= y && 1 <= m <= 12 && 1 <= d <= 31 then Some(Date(y, m, d)) else None
    else None
  }

  /** Reads a "'T'HH:mm:ss.SSS" string back into a time of day. */
  function ParseTime(s: string): (r: Option<Time>)
    ensures r.Some? ==> |s| == TIMESTAMP_WIDTH - DATE_WIDTH
  {
    if |s| == TIMESTAMP_WIDTH - DATE_WIDTH && s[0] == 'T' && s[3] == ':' && s[6] == ':' && s[9] == '.'
       && AllDigits(s[1..3]) && AllDigits(s[4..6]) && AllDigits(s[7..9]) && AllDigits(s[10..])
    then
      var h, mi, se, ms := ParseDigits(s[1..3]), ParseDigits(s[4..6]), ParseDigits(s[7..9]), ParseDigits(s[10..]);
      if h <= 23 && mi <= 59 && se <= 59 then Some(Time(h, mi, se, ms)) else None
    else None
  }

  /** Reads a "yyyy-MM-dd'T'HH:mm:ss.SSS" string back into a timestamp; None for anything else. */
  function ParseTimestamp(s: string): (r: Option<Timestamp>)
    ensures r.Some? ==> |s| == TIMESTAMP_WIDTH
  {
    if |s| != TIMESTAMP_WIDTH then None
    else match (ParseDate(s[..DATE_WIDTH]), ParseTime(s[DATE_WIDTH..]))
      case (Some(d), Some(c)) => Some(Timestamp(d, c))
      case _ => None
  }

  /** Every date is recovered from its text. */
  lemma DateRoundTrip(d: Date)
    ensures ParseDate(FormatDate(d)) == Some(d)
  {
    var s := FormatDate(d);
    assert s[..4] == Digits(d.year, 4);
    assert s[5..7] == Digits(d.month, 2);
    assert s[8..] == Digits(d.day, 2);
    DigitsRoundTrip(d.year, 4);
    DigitsRoundTrip(d.month, 2);
    DigitsRoundTrip(d.day, 2);
  }

  /** Only the text of a date parses: ParseDate is an exact inverse of FormatDate. */
  lemma DateTextUnique(s: string)
    requires ParseDate(s).Some?
    ensures FormatDate(ParseDate(s).value) == s
  {
    ParseRoundTrip(s[..4]);
    ParseRoundTrip(s[5..7]);
    ParseRoundTrip(s[8..]);
    assert s == s[..4] + "-" + s[5..7] + "-" + s[8..];
  }

  lemma TimeRoundTrip(c: Time)
    ensures ParseTime(FormatTime(c)) == Some(c)
  {
    var s := FormatTime(c);
    assert s[1..3] == Digits(c.hour, 2);
    assert s[4..6] == Digits(c.minute, 2);
    assert s[7..9] == Digits(c.second, 2);
    assert s[10..] == Digits(c.millis, 3);
    DigitsRoundTrip(c.hour, 2);
    DigitsRoundTrip(c.minute, 2);
    DigitsRoundTrip(c.second, 2);
    DigitsRoundTrip(c.millis, 3);
  }

  lemma TimeTextUnique(s: string)
    requires ParseTime(s).Some?
    ensures FormatTime(ParseTime(s).value) == s
  {
    ParseRoundTrip(s[1..3]);
    ParseRoundTrip(s[4..6]);
    ParseRoundTrip(s[7..9]);
    ParseRoundTrip(s[10..]);
    assert s == "T" + s[1..3] + ":" + s[4..6] + ":" + s[7..9] + "." + s[10..];
  }

  /** Every timestamp is recovered from its text. */
  lemma TimestampRoundTrip(t: Timestamp)
    ensures ParseTimestamp(FormatTimestamp(t)) == Some(t)
  {
    var s := FormatTimestamp(t);
    assert s[DATE_WIDTH..] == FormatTime(t.time);
    DateRoundTrip(t.date);
    TimeRoundTrip(t.time);
  }

  /** Only the text of a timestamp parses: ParseTimestamp is an exact inverse of FormatTimestamp. */
  lemma TimestampTextUnique(s: string)
    requires ParseTimestamp(s).Some?
    ensures FormatTimestamp(ParseTimestamp(s).value) == s
  {
    DateTextUnique(s[..DATE_WIDTH]);
    TimeTextUnique(s[DATE_WIDTH..]);
    assert s == s[..DATE_WIDTH] + s[DATE_WIDTH..];
  }

  lemma ExampleYear()
    ensures Digits(2024, 4) == "2024"
  {
    assert Digits(2, 1) == Digits(0, 0) + "2";
    assert Digits(20, 2) == Digits(2, 1) + "0";
    assert Digits(202, 3) == Digits(20, 2) + "2";
    assert Digits(2024, 4) == Digits(202, 3) + "4";
  }

  lemma ExampleTwoDigits(n: nat)
    requires n < 10
    ensures Digits(n, 2) == ['0', (48 + n) as char]
  {
    assert Digits(0, 1) == Digits(0, 0) + "0";
    assert Digits(n, 2) == Digits(0, 1) + [(48 + n) as char];
  }

  /** The example of a date column: 5 January 2024 is written as "2024-01-05". */
  lemma ExampleDate()
    ensures FormatDate(Date(2024, 1, 5)) == "2024-01-05"
  {
    ExampleYear();
    ExampleTwoDigits(1);
    ExampleTwoDigits(5);
  }
}
