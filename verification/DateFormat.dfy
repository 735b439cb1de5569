/**
 * The date-format interpreter: a tokenizer for caller-supplied format strings, a fixed-width parser, the
 * renderer that is meant to undo it, and the two-digit-year century rule.
 */
module DateFormat {
  import opened Wrappers

  datatype Token =
    | Year4 | Year2 | RRYear | Month | MonthAbbrev | Day | Hour24 | Hour12 | Minute | Second | Meridiem
    | Literal(c: char)

  datatype DateTime = DateTime(year: int, month: int, day: int, hour: int, minute: int, second: int)

  /** The parser's output record together with its reading position. */
  datatype Parsed = Parsed(pos: nat, t: DateTime, isPm: bool, hasMeridiem: bool)

  const START: Parsed := Parsed(0, DateTime(1970, 1, 1, 0, 0, 0), false, false)

  const MONTHS: seq<string> := ["JAN", "FEB", "MAR", "APR", "MAY", "JUN", "JUL", "AUG", "SEP", "OCT", "NOV", "DEC"]

  function Upper(c: char): char {
    if 'a' <= c <= 'z' then c - 'a' + 'A' else c
  }

  /** The lower-case and the capital form of one letter. */
  predicate CasePair(small: char, capital: char) {
    'A' <= capital <= 'Z' && small as int == capital as int + 32
  }

  predicate NoSmallLetter(word: string) {
    forall k | 0 <= k < |word| :: !('a' <= word[k] <= 'z')
  }

  /** A text reads as a capitalized word exactly when each character is the word's or its lower-case form. */
  predicate SpelledAlike(text: string, word: string) {
    |text| == |word| && forall k | 0 <= k < |word| :: text[k] == word[k] || CasePair(text[k], word[k])
  }

  lemma UpperIs(c: char, d: char)
    requires !('a' <= d <= 'z')
    ensures Upper(c) == d <==> c == d || CasePair(c, d)
  {}

  // ---------------------------------------------------------------- tokenizer

  predicate Matches(fmt: string, i: nat, keyword: string) {
    && i + |keyword| <= |fmt|
    && forall k | 0 <= k < |keyword| :: Upper(fmt[i + k]) == keyword[k]
  }

  /** Keywords are found in any mixture of cases, and found only where they are spelled out. */
  lemma KeywordMatchesIff(fmt: string, i: nat, keyword: string)
    requires NoSmallLetter(keyword)
    ensures Matches(fmt, i, keyword) <==> i + |keyword| <= |fmt| && SpelledAlike(fmt[i..i + |keyword|], keyword)
  {
    if i + |keyword| <= |fmt| {
      var piece := fmt[i..i + |keyword|];
      forall k | 0 <= k < |keyword| ensures Upper(fmt[i + k]) == keyword[k] <==> piece[k] == keyword[k] || CasePair(piece[k], keyword[k]) {
        UpperIs(fmt[i + k], keyword[k]);
      }
    }
  }

  datatype Element = Element(token: Token, width: nat)

  /** The element the format has at position i, keywords tried in the source's order. */
  function ElementAt(fmt: string, i: nat): (e: Element)
    requires i < |fmt|
    ensures 1 <= e.width && i + e.width <= |fmt|
  {
    if Matches(fmt, i, "YYYY") then Element(Year4, 4)
    else if Matches(fmt, i, "HH24") then Element(Hour24, 4)
    else if Matches(fmt, i, "HH12") then Element(Hour12, 4)
    else if Matches(fmt, i, "RR") then Element(RRYear, 2)
    else if Matches(fmt, i, "YY") then Element(Year2, 2)
    else if Matches(fmt, i, "MON") then Element(MonthAbbrev, 3)
    else if Matches(fmt, i, "MM") then Element(Month, 2)
    else if Matches(fmt, i, "DD") then Element(Day, 2)
    else if Matches(fmt, i, "HH") then Element(Hour12, 2)
    else if Matches(fmt, i, "MI") then Element(Minute, 2)
    else if Matches(fmt, i, "SS") then Element(Second, 2)
    else if Matches(fmt, i, "AM") || Matches(fmt, i, "PM") then Element(Meridiem, 2)
    else Element(Literal(fmt[i]), 1)
  }

  /** The format's elements from position i on. */
  function Tokens(fmt: string, i: nat): seq<Token>
    requires i <= |fmt|
    decreases |fmt| - i
  {
    if i == |fmt| then [] else [ElementAt(fmt, i).token] + Tokens(fmt, i + ElementAt(fmt, i).width)
  }

  /** What each keyword means; the same table whatever order it is searched in. */
  function Meaning(keyword: string): Option<Token> {
    match keyword
    case "YYYY" => Some(Year4)
    case "HH24" => Some(Hour24)
    case "HH12" => Some(Hour12)
    case "RR" => Some(RRYear)
    case "YY" => Some(Year2)
    case "MON" => Some(MonthAbbrev)
    case "MM" => Some(Month)
    case "DD" => Some(Day)
    case "HH" => Some(Hour12)
    case "MI" => Some(Minute)
    case "SS" => Some(Second)
    case "AM" => Some(Meridiem)
    case "PM" => Some(Meridiem)
    case _ => None
  }

  method Tokenize(fmt: string) returns (tokens: seq<Token>)
    ensures tokens == Tokens(fmt, 0)
  {
    hide ElementAt;
    tokens := [];
    var i := 0;
    while i < |fmt|
      invariant 0 <= i <= |fmt|
      invariant tokens + Tokens(fmt, i) == Tokens(fmt, 0)
    {
      var e := ElementAt(fmt, i);
      assert Tokens(fmt, i) == [e.token] + Tokens(fmt, i + e.width);
      assert tokens + Tokens(fmt, i) == (tokens + [e.token]) + Tokens(fmt, i + e.width);
      tokens := tokens + [e.token];
      i := i + e.width;
    }
  }

  lemma MatchLetters(fmt: string, i: nat, keyword: string)
    requires Matches(fmt, i, keyword) && 2 <= |keyword| <= 4
    ensures Upper(fmt[i]) == keyword[0] && Upper(fmt[i + 1]) == keyword[1]
    ensures |keyword| > 2 ==> Upper(fmt[i + 2]) == keyword[2]
    ensures |keyword| > 3 ==> Upper(fmt[i + 3]) == keyword[3]
  {
    assert Upper(fmt[i + 0]) == keyword[0];
  }

  /** The keyword behind the element taken at i, when that is not a literal. */
  lemma ElementHasKeyword(fmt: string, i: nat) returns (keyword: string)
    requires i < |fmt| && !ElementAt(fmt, i).token.Literal?
    ensures Matches(fmt, i, keyword) && Meaning(keyword) == Some(ElementAt(fmt, i).token) && |keyword| == ElementAt(fmt, i).width
  {
    keyword := if Matches(fmt, i, "YYYY") then "YYYY"
      else if Matches(fmt, i, "HH24") then "HH24"
      else if Matches(fmt, i, "HH12") then "HH12"
      else if Matches(fmt, i, "RR") then "RR"
      else if Matches(fmt, i, "YY") then "YY"
      else if Matches(fmt, i, "MON") then "MON"
      else if Matches(fmt, i, "MM") then "MM"
      else if Matches(fmt, i, "DD") then "DD"
      else if Matches(fmt, i, "HH") then "HH"
      else if Matches(fmt, i, "MI") then "MI"
      else if Matches(fmt, i, "SS") then "SS"
      else if Matches(fmt, i, "AM") then "AM"
      else "PM";
  }

  /** A keyword that occurs at i is never passed over for a literal. */
  lemma KeywordTaken(fmt: string, i: nat, keyword: string)
    requires i < |fmt| && Meaning(keyword).Some? && Matches(fmt, i, keyword)
    ensures !ElementAt(fmt, i).token.Literal?
  {}

  lemma LongerKeywordsFirst(fmt: string, i: nat, keyword: string)
    requires i < |fmt| && |keyword| == 4 && Meaning(keyword).Some? && Matches(fmt, i, keyword)
    ensures ElementAt(fmt, i).width == 4
  {}

  /**
   * Longest match: a keyword occurring at i is no longer than the element taken there, which is the
   * meaning of the keyword of its own length; an element is a literal only where no keyword occurs.
   */
  lemma ElementIsLongestMatch(fmt: string, i: nat, keyword: string)
    requires i < |fmt| && Meaning(keyword).Some? && Matches(fmt, i, keyword)
    ensures var e := ElementAt(fmt, i);
      |keyword| <= e.width && (|keyword| == e.width ==> Meaning(keyword) == Some(e.token)) && !e.token.Literal?
  {
    KeywordTaken(fmt, i, keyword);
    var taken := ElementHasKeyword(fmt, i);
    MatchLetters(fmt, i, keyword);
    MatchLetters(fmt, i, taken);
    if |keyword| == 4 { LongerKeywordsFirst(fmt, i, keyword); }
    if |taken| == |keyword| {
      assert forall k | 0 <= k < |keyword| :: taken[k] == keyword[k];
      assert taken == keyword;
    }
  }

  // ---------------------------------------------------------------- numbers

  function DigitOf(c: char): int {
    c as int - '0' as int
  }

  predicate IsDigit(c: char) {
    '0' <= c <= '9'
  }

  predicate AllDigits(s: string) {
    forall k | 0 <= k < |s| :: IsDigit(s[k])
  }

  /** The number a digit string denotes. */
  function Value(s: string): int {
    if s == [] then 0 else 10 * Value(s[..|s| - 1]) + DigitOf(s[|s| - 1])
  }

  function Pow10(w: nat): (p: nat)
    ensures p >= 1
  {
    if w == 0 then 1 else 10 * Pow10(w - 1)
  }

  function NatToString(n: nat): string {
    if n < 10 then ["0123456789"[n]] else NatToString(n / 10) + ["0123456789"[n % 10]]
  }

  function ToString(n: int): string {
    if n < 0 then "-" + NatToString(-n) else NatToString(n)
  }

  function Zeros(n: nat): string {
    seq(n, i => '0')
  }

  function Padded(value: int, width: nat): string {
    var s := ToString(value);
    if |s| < width then Zeros(width - |s|) + s else s
  }

  method ZeroPad(value: int, width: nat) returns (s: string)
    ensures s == Padded(value, width)
  {
    s := ToString(value);
    ghost var t := s;
    while |s| < width
      invariant |s| >= |t| && s == Zeros(|s| - |t|) + t && (|s| <= width || s == t)
    {
      s := "0" + s;
    }
  }

  lemma ValueAppend(s: string, c: char)
    ensures Value(s + [c]) == 10 * Value(s) + DigitOf(c)
  {
    assert (s + [c])[..|s|] == s;
  }

  lemma {:induction false} NatToStringIsDecimal(n: nat)
    ensures 1 <= |NatToString(n)| && AllDigits(NatToString(n)) && Value(NatToString(n)) == n
    decreases n
  {
    var d := "0123456789"[n % 10];
    assert IsDigit(d) && DigitOf(d) == n % 10;
    if n < 10 {
      assert NatToString(n) == "" + [d];
      ValueAppend("", d);
    } else {
      NatToStringIsDecimal(n / 10);
      ValueAppend(NatToString(n / 10), d);
    }
  }

  lemma {:induction false} NatToStringFits(n: nat, w: nat)
    requires w >= 1 && n < Pow10(w)
    ensures |NatToString(n)| <= w
    decreases w
  {
    if n >= 10 { NatToStringFits(n / 10, w - 1); }
  }

  lemma {:induction false} LeadingZeros(k: nat, s: string)
    ensures Value(Zeros(k) + s) == Value(s)
  {
    var z := Zeros(k) + s;
    if s != [] {
      assert z[..|z| - 1] == Zeros(k) + s[..|s| - 1];
      LeadingZeros(k, s[..|s| - 1]);
    } else if k > 0 {
      assert z[..k - 1] == Zeros(k - 1) + s;
      LeadingZeros(k - 1, s);
    }
  }

  /** Zero-padding a number that fits its width gives exactly that many digits, denoting the number. */
  lemma PaddedIsFixedWidth(n: nat, w: nat)
    requires w >= 1 && n < Pow10(w)
    ensures |Padded(n, w)| == w && AllDigits(Padded(n, w)) && Value(Padded(n, w)) == n
  {
    NatToStringIsDecimal(n);
    NatToStringFits(n, w);
    hide NatToString;
    hide Value;
    hide Pow10;
    var s := NatToString(n);
    LeadingZeros(w - |s|, s);
    ZerosThenDigits(w - |s|, s);
    assert Padded(n, w) == if |s| < w then Zeros(w - |s|) + s else s;
  }

  lemma {:induction false} NatToStringIsLong(n: nat, w: nat)
    requires n >= Pow10(w)
    ensures |NatToString(n)| > w
    decreases w
  {
    if w > 0 { NatToStringIsLong(n / 10, w - 1); }
  }

  /**
   * What is out of range is not cut: a number too big for its width is shown in more characters, a negative
   * one with its sign before its digits.
   */
  lemma PaddedOutOfRange(n: int, w: nat)
    requires w >= 1
    ensures n >= 0 ==> (|Padded(n, w)| == w <==> n < Pow10(w)) && AllDigits(Padded(n, w)) && Value(Padded(n, w)) == n
    ensures n < 0 ==> ToString(n)[0] == '-' && AllDigits(ToString(n)[1..]) && Value(ToString(n)[1..]) == -n
  {
    NatToStringIsDecimal(if n < 0 then -n else n);
    if n < 0 {
      assert ToString(n)[1..] == NatToString(-n);
    } else if n < Pow10(w) {
      PaddedIsFixedWidth(n, w);
    } else {
      NatToStringIsLong(n, w);
    }
  }

  lemma ZerosThenDigits(k: nat, s: string)
    requires AllDigits(s)
    ensures |Zeros(k) + s| == k + |s| && AllDigits(Zeros(k) + s)
  {
    forall i | 0 <= i < k + |s| ensures IsDigit((Zeros(k) + s)[i]) {
      if i >= k { assert (Zeros(k) + s)[i] == s[i - k]; }
    }
  }

  // ---------------------------------------------------------------- century rule

  /** `%` as the source's integers have it, with the sign of the dividend. */
  function Rem(a: int, b: nat): int
    requires b > 0
  {
    if a >= 0 then a % b else -((-a) % b)
  }

  function RRYearOf(rr: nat, current: nat): int {
    var century := current / 100;
    var yy := current % 100;
    var c := if rr <= 49 then (if yy <= 49 then century else century + 1)
             else (if yy <= 49 then century - 1 else century);
    c * 100 + rr
  }

  predicate InWindow(year: int, current: nat) {
    var base := 100 * ((current + 50) / 100);
    base - 50 <= year <= base + 49
  }

  /** The rule picks the one year of the window whose last two digits are rr. */
  lemma RRYearIsUniqueInWindow(rr: nat, current: nat, year: int)
    requires rr <= 99
    ensures InWindow(year, current) && year % 100 == rr <==> year == RRYearOf(rr, current)
  {}

  // ---------------------------------------------------------------- parser

  function DigitsAt(text: string, pos: nat, width: nat): Option<int> {
    if pos + width > |text| || !AllDigits(text[pos..pos + width]) then None
    else Some(Value(text[pos..pos + width]))
  }

  method ReadDigits(text: string, pos: nat, width: nat) returns (r: Option<int>)
    ensures r == DigitsAt(text, pos, width)
  {
    if pos + width > |text| { return None; }
    var v := 0;
    for k := 0 to width
      invariant AllDigits(text[pos..pos + k]) && v == Value(text[pos..pos + k])
    {
      var c := text[pos + k];
      if !IsDigit(c) {
        assert text[pos..pos + width][k] == c;
        return None;
      }
      assert text[pos..pos + k + 1] == text[pos..pos + k] + [c];
      ValueAppend(text[pos..pos + k], c);
      v := v * 10 + DigitOf(c);
    }
    r := Some(v);
  }

  /** The number of the month abbreviation, searched from month m on; 0 if it is none. */
  function MonthNumber(name: string, m: nat): (n: nat)
    requires m <= 12
    ensures n <= 12
    decreases 12 - m
  {
    if m == 12 then 0 else if MONTHS[m] == name then m + 1 else MonthNumber(name, m + 1)
  }

  function UpperCase(s: string): string {
    seq(|s|, i requires 0 <= i < |s| => Upper(s[i]))
  }

  function ParseMonthName(text: string, p: Parsed): Option<Parsed> {
    if p.pos + 3 > |text| then None
    else
      var n := MonthNumber(UpperCase(text[p.pos..p.pos + 3]), 0);
      if n == 0 then None else Some(p.(pos := p.pos + 3, t := p.t.(month := n)))
  }

  function ParseMeridiem(text: string, p: Parsed): Option<Parsed> {
    if p.pos + 2 > |text| then None
    else
      var c0, c1 := Upper(text[p.pos]), Upper(text[p.pos + 1]);
      if c1 != 'M' || (c0 != 'A' && c0 != 'P') then None
      else Some(p.(pos := p.pos + 2, isPm := c0 == 'P', hasMeridiem := true))
  }

  /** The digits an element occupies. */
  function NumberWidth(tok: Token): nat {
    if tok.Year4? then 4 else 2
  }

  predicate IsNumeric(tok: Token) {
    !tok.MonthAbbrev? && !tok.Meridiem? && !tok.Literal?
  }

  /** The record once numeric element `tok` was read as v. */
  function Store(tok: Token, v: int, current: nat, p: Parsed): Parsed
    requires IsNumeric(tok) && v >= 0
  {
    match tok
    case Year4 => p.(t := p.t.(year := v))
    case Year2 => p.(t := p.t.(year := 2000 + v))
    case RRYear => p.(t := p.t.(year := RRYearOf(v, current)))
    case Month => p.(t := p.t.(month := v))
    case Day => p.(t := p.t.(day := v))
    case Hour24 => p.(t := p.t.(hour := v))
    case Hour12 => p.(t := p.t.(hour := v), hasMeridiem := true)
    case Minute => p.(t := p.t.(minute := v))
    case Second => p.(t := p.t.(second := v))
  }

  lemma {:induction false} ValueNonNegative(s: string)
    requires AllDigits(s)
    ensures Value(s) >= 0
  {
    if s != [] { ValueNonNegative(s[..|s| - 1]); }
  }

  function ParseElement(text: string, tok: Token, current: nat, p: Parsed): Option<Parsed> {
    if tok.MonthAbbrev? then ParseMonthName(text, p)
    else if tok.Meridiem? then ParseMeridiem(text, p)
    else if tok.Literal? then
      if p.pos >= |text| || text[p.pos] != tok.c then None else Some(p.(pos := p.pos + 1))
    else
      var w := NumberWidth(tok);
      match DigitsAt(text, p.pos, w)
      case None => None
      case Some(v) =>
        ValueNonNegative(text[p.pos..p.pos + w]);
        Some(Store(tok, v, current, p).(pos := p.pos + w))
  }

  /** The parser's state after the first k elements; None once one did not fit. */
  function ParsedUpTo(text: string, toks: seq<Token>, current: nat, k: nat): Option<Parsed>
    requires k <= |toks|
  {
    if k == 0 then Some(START)
    else
      match ParsedUpTo(text, toks, current, k - 1)
      case None => None
      case Some(p) => ParseElement(text, toks[k - 1], current, p)
  }

  function To24(hour: int, isPm: bool): int {
    if isPm then (if hour == 12 then 12 else hour + 12) else (if hour == 12 then 0 else hour)
  }

  function Finished(p: Parsed): DateTime {
    if p.hasMeridiem then p.t.(hour := To24(p.t.hour, p.isPm)) else p.t
  }

  function ParseSpec(text: string, toks: seq<Token>, current: nat): Option<DateTime> {
    match ParsedUpTo(text, toks, current, |toks|)
    case None => None
    case Some(p) => if p.pos == |text| then Some(Finished(p)) else None
  }

  lemma {:induction false} FailedStaysFailed(text: string, toks: seq<Token>, current: nat, k: nat, m: nat)
    requires k <= m <= |toks| && ParsedUpTo(text, toks, current, k).None?
    ensures ParsedUpTo(text, toks, current, m).None?
    decreases m
  {
    hide ParseElement;
    if k < m { FailedStaysFailed(text, toks, current, k, m - 1); }
  }

  /** The whole text is parsed against the format, or rejected. */
  method Parse(text: string, fmt: string, current: nat) returns (r: Option<DateTime>)
    ensures r == ParseSpec(text, Tokens(fmt, 0), current)
  {
    var toks := Tokenize(fmt);
    var p := START;
    for k := 0 to |toks|
      invariant ParsedUpTo(text, toks, current, k) == Some(p)
    {
      var next := ParseElement(text, toks[k], current, p);
      assert ParsedUpTo(text, toks, current, k + 1) == next;
      if next.None? {
        FailedStaysFailed(text, toks, current, k + 1, |toks|);
        return None;
      }
      p := next.value;
    }
    if p.hasMeridiem {
      p := p.(t := p.t.(hour := To24(p.t.hour, p.isPm)));
    }
    r := if p.pos == |text| then Some(p.t) else None;
  }

  // ---------------------------------------------------------------- renderer

  function Hour12Of(hour: int): int {
    var h := Rem(hour, 12);
    if h == 0 then 12 else h
  }

  function Rendered(tok: Token, t: DateTime): string {
    match tok
    case Year4 => Padded(t.year, 4)
    case Year2 => Padded(Rem(t.year, 100), 2)
    case RRYear => Padded(Rem(t.year, 100), 2)
    case Month => Padded(t.month, 2)
    case MonthAbbrev => if 1 <= t.month <= 12 then MONTHS[t.month - 1] else "???"
    case Day => Padded(t.day, 2)
    case Hour24 => Padded(t.hour, 2)
    case Hour12 => Padded(Hour12Of(t.hour), 2)
    case Minute => Padded(t.minute, 2)
    case Second => Padded(t.second, 2)
    case Meridiem => if t.hour < 12 then "AM" else "PM"
    case Literal(c) => [c]
  }

  function RenderedUpTo(toks: seq<Token>, t: DateTime, k: nat): string
    requires k <= |toks|
  {
    if k == 0 then "" else RenderedUpTo(toks, t, k - 1) + Rendered(toks[k - 1], t)
  }

  method Render(fmt: string, t: DateTime) returns (out: string)
    ensures out == RenderedUpTo(Tokens(fmt, 0), t, |Tokens(fmt, 0)|)
  {
    var toks := Tokenize(fmt);
    out := "";
    for k := 0 to |toks|
      invariant out == RenderedUpTo(toks, t, k)
    {
      out := out + Rendered(toks[k], t);
    }
  }

  // ---------------------------------------------------------------- round trip

  predicate InRange(t: DateTime) {
    && 0 <= t.year <= 9999 && 1 <= t.month <= 12 && 1 <= t.day <= 31
    && 0 <= t.hour <= 23 && 0 <= t.minute <= 59 && 0 <= t.second <= 59
  }

  predicate SetsYear(tok: Token) { tok.Year4? || tok.Year2? || tok.RRYear? }
  predicate SetsMonth(tok: Token) { tok.Month? || tok.MonthAbbrev? }
  predicate SetsDay(tok: Token) { tok.Day? }
  predicate SetsHour(tok: Token) { tok.Hour24? || tok.Hour12? }
  predicate SetsMinute(tok: Token) { tok.Minute? }
  predicate SetsSecond(tok: Token) { tok.Second? }
  predicate IsMeridiem(tok: Token) { tok.Meridiem? }
  predicate IsHour12(tok: Token) { tok.Hour12? }

  /** The last of the first k elements with a property. */
  function LastOf(toks: seq<Token>, k: nat, keep: Token -> bool): Option<Token>
    requires k <= |toks|
  {
    if k == 0 then None else if keep(toks[k - 1]) then Some(toks[k - 1]) else LastOf(toks, k - 1, keep)
  }

  predicate Mentions(toks: seq<Token>, k: nat, keep: Token -> bool)
    requires k <= |toks|
  {
    LastOf(toks, k, keep).Some?
  }

  lemma {:induction false} MentionsIff(toks: seq<Token>, k: nat, keep: Token -> bool)
    requires k <= |toks|
    ensures Mentions(toks, k, keep) <==> exists j :: 0 <= j < k && keep(toks[j])
  {
    if k > 0 { MentionsIff(toks, k - 1, keep); }
  }

  /** The year an element makes of a rendered year. */
  function YearVia(last: Option<Token>, year: int, current: nat): int
    requires year >= 0
  {
    match last
    case Some(Year4) => year
    case Some(Year2) => 2000 + year % 100
    case Some(RRYear) => RRYearOf(year % 100, current)
    case _ => 1970
  }

  function HourVia(last: Option<Token>, hour: int): int {
    match last
    case Some(Hour24) => hour
    case Some(Hour12) => Hour12Of(hour)
    case _ => 0
  }

  function Expected(toks: seq<Token>, t: DateTime, current: nat, k: nat): Parsed
    requires k <= |toks| && InRange(t)
  {
    Parsed(
      |RenderedUpTo(toks, t, k)|,
      DateTime(
        YearVia(LastOf(toks, k, SetsYear), t.year, current),
        if Mentions(toks, k, SetsMonth) then t.month else 1,
        if Mentions(toks, k, SetsDay) then t.day else 1,
        HourVia(LastOf(toks, k, SetsHour), t.hour),
        if Mentions(toks, k, SetsMinute) then t.minute else 0,
        if Mentions(toks, k, SetsSecond) then t.second else 0),
      Mentions(toks, k, IsMeridiem) && t.hour >= 12,
      Mentions(toks, k, IsMeridiem) || Mentions(toks, k, IsHour12))
  }

  /** What reading back the rendering of one element does to the record. */
  function Applied(tok: Token, t: DateTime, current: nat, p: Parsed): Parsed
    requires InRange(t)
  {
    var q := p.(pos := p.pos + |Rendered(tok, t)|);
    if SetsYear(tok) then q.(t := p.t.(year := YearVia(Some(tok), t.year, current)))
    else if SetsMonth(tok) then q.(t := p.t.(month := t.month))
    else if SetsDay(tok) then q.(t := p.t.(day := t.day))
    else if tok.Hour24? then q.(t := p.t.(hour := t.hour))
    else if tok.Hour12? then q.(t := p.t.(hour := Hour12Of(t.hour)), hasMeridiem := true)
    else if SetsMinute(tok) then q.(t := p.t.(minute := t.minute))
    else if SetsSecond(tok) then q.(t := p.t.(second := t.second))
    else if tok.Meridiem? then q.(isPm := t.hour >= 12, hasMeridiem := true)
    else q
  }

  predicate At(text: string, pos: nat, piece: string) {
    pos + |piece| <= |text| && text[pos..pos + |piece|] == piece
  }

  lemma MonthNameIsFound(m: nat)
    requires 1 <= m <= 12
    ensures |MONTHS[m - 1]| == 3 && UpperCase(MONTHS[m - 1]) == MONTHS[m - 1] && MonthNumber(MONTHS[m - 1], 0) == m
  {
    MonthNumberFrom(m, 0);
  }

  lemma {:induction false} MonthNumberFrom(m: nat, k: nat)
    requires 1 <= m <= 12 && k < m
    ensures MonthNumber(MONTHS[m - 1], k) == m
    decreases m - k
  {
    if k < m - 1 {
      assert MONTHS[k] != MONTHS[m - 1] by {
        assert forall i | 0 <= i < 12 :: |MONTHS[i]| == 3;
        assert MONTHS[k][0] != MONTHS[m - 1][0] || MONTHS[k][1] != MONTHS[m - 1][1] || MONTHS[k][2] != MONTHS[m - 1][2];
      }
      MonthNumberFrom(m, k + 1);
    }
  }

  /** The number a numeric element shows, and that it fits the element's width. */
  function Shown(tok: Token, t: DateTime): (n: nat)
    requires InRange(t) && IsNumeric(tok)
    ensures n < Pow10(NumberWidth(tok)) && Rendered(tok, t) == Padded(n, NumberWidth(tok))
  {
    assert Pow10(2) == 100 && Pow10(4) == 10000;
    match tok
    case Year4 => t.year
    case Year2 => t.year % 100
    case RRYear => t.year % 100
    case Month => t.month
    case Day => t.day
    case Hour24 => t.hour
    case Hour12 => Hour12Of(t.hour)
    case Minute => t.minute
    case Second => t.second
  }

  lemma NumberRoundTrip(text: string, tok: Token, t: DateTime, p: Parsed)
    requires InRange(t) && IsNumeric(tok) && At(text, p.pos, Rendered(tok, t))
    ensures DigitsAt(text, p.pos, NumberWidth(tok)) == Some(Shown(tok, t)) && |Rendered(tok, t)| == NumberWidth(tok)
  {
    PaddedIsFixedWidth(Shown(tok, t), NumberWidth(tok));
  }

  lemma StoreShown(tok: Token, t: DateTime, current: nat, p: Parsed)
    requires InRange(t) && IsNumeric(tok)
    ensures Store(tok, Shown(tok, t), current, p).(pos := p.pos + |Rendered(tok, t)|) == Applied(tok, t, current, p)
  {}

  lemma MonthRoundTrip(text: string, t: DateTime, current: nat, p: Parsed)
    requires InRange(t) && At(text, p.pos, Rendered(MonthAbbrev, t))
    ensures ParseMonthName(text, p) == Some(Applied(MonthAbbrev, t, current, p))
  {
    MonthNameIsFound(t.month);
    assert Rendered(MonthAbbrev, t) == MONTHS[t.month - 1];
  }

  lemma MeridiemRoundTrip(text: string, t: DateTime, current: nat, p: Parsed)
    requires InRange(t) && At(text, p.pos, Rendered(Meridiem, t))
    ensures ParseMeridiem(text, p) == Some(Applied(Meridiem, t, current, p))
  {
    var piece := Rendered(Meridiem, t);
    assert text[p.pos] == piece[0] && text[p.pos + 1] == piece[1];
  }

  /** Reading one element where it was rendered gives back what it shows. */
  lemma ElementRoundTrip(text: string, tok: Token, t: DateTime, current: nat, p: Parsed)
    requires InRange(t) && At(text, p.pos, Rendered(tok, t))
    ensures ParseElement(text, tok, current, p) == Some(Applied(tok, t, current, p))
  {
    if IsNumeric(tok) {
      NumberRoundTrip(text, tok, t, p);
      StoreShown(tok, t, current, p);
    } else if tok.MonthAbbrev? {
      MonthRoundTrip(text, t, current, p);
    } else if tok.Meridiem? {
      MeridiemRoundTrip(text, t, current, p);
    } else {
      assert text[p.pos] == Rendered(tok, t)[0];
    }
  }

  lemma ExpectedStep(toks: seq<Token>, t: DateTime, current: nat, k: nat)
    requires k < |toks| && InRange(t)
    ensures Expected(toks, t, current, k + 1) == Applied(toks[k], t, current, Expected(toks, t, current, k))
  {}

  lemma {:induction false} RenderedPrefix(toks: seq<Token>, t: DateTime, k: nat, m: nat)
    requires k <= m <= |toks|
    ensures RenderedUpTo(toks, t, k) <= RenderedUpTo(toks, t, m)
    decreases m
  {
    hide Rendered;
    if k < m { RenderedPrefix(toks, t, k, m - 1); }
  }

  lemma PieceInPlace(toks: seq<Token>, t: DateTime, k: nat)
    requires 0 < k <= |toks|
    ensures At(RenderedUpTo(toks, t, |toks|), |RenderedUpTo(toks, t, k - 1)|, Rendered(toks[k - 1], t))
  {
    RenderedPrefix(toks, t, k, |toks|);
    assert RenderedUpTo(toks, t, k) == RenderedUpTo(toks, t, k - 1) + Rendered(toks[k - 1], t);
  }

  lemma ExpectedStart(text: string, toks: seq<Token>, t: DateTime, current: nat)
    requires InRange(t)
    ensures ParsedUpTo(text, toks, current, 0) == Some(Expected(toks, t, current, 0))
  {}

  lemma ParsingStep(text: string, toks: seq<Token>, t: DateTime, current: nat, k: nat)
    requires k < |toks| && InRange(t) && At(text, |RenderedUpTo(toks, t, k)|, Rendered(toks[k], t))
    requires ParsedUpTo(text, toks, current, k) == Some(Expected(toks, t, current, k))
    ensures ParsedUpTo(text, toks, current, k + 1) == Some(Expected(toks, t, current, k + 1))
  {
    ExpectedStep(toks, t, current, k);
    ElementRoundTrip(text, toks[k], t, current, Expected(toks, t, current, k));
  }

  /** Parsing a rendering goes through, element by element. */
  lemma {:induction false} ParsingTheRendering(text: string, toks: seq<Token>, t: DateTime, current: nat, k: nat)
    requires k <= |toks| && InRange(t) && text == RenderedUpTo(toks, t, |toks|)
    ensures ParsedUpTo(text, toks, current, k) == Some(Expected(toks, t, current, k))
    decreases k
  {
    hide *;
    if k == 0 {
      ExpectedStart(text, toks, t, current);
    } else {
      ParsingTheRendering(text, toks, t, current, k - 1);
      PieceInPlace(toks, t, k);
      ParsingStep(text, toks, t, current, k - 1);
    }
  }

  /** When the last year element gives the year back. */
  predicate YearSurvives(last: Token, year: int, current: nat) {
    last.Year4? || (last.Year2? && 2000 <= year <= 2099) || (last.RRYear? && InWindow(year, current))
  }

  /** When the last hour element does, given whether the format has AM/PM or a 12-hour element anywhere. */
  predicate HourSurvives(last: Token, meridiem: bool, hour12: bool, hour: int) {
    if last.Hour12? then meridiem || hour < 12
    else if meridiem then hour <= 12
    else !hour12 || hour != 12
  }

  /** A rendering is always accepted, and reads back as the record of its last elements. */
  lemma RenderingIsAccepted(fmt: string, t: DateTime, current: nat)
    requires InRange(t)
    ensures var toks := Tokens(fmt, 0);
      ParseSpec(RenderedUpTo(toks, t, |toks|), toks, current) == Some(Finished(Expected(toks, t, current, |toks|)))
  {
    var toks := Tokens(fmt, 0);
    ParsingTheRendering(RenderedUpTo(toks, t, |toks|), toks, t, current, |toks|);
  }

  /** The parsed rendering of t. */
  function Reread(toks: seq<Token>, t: DateTime, current: nat): Option<DateTime> {
    ParseSpec(RenderedUpTo(toks, t, |toks|), toks, current)
  }

  lemma YearReturnedIff(last: Token, year: nat, current: nat)
    requires SetsYear(last)
    ensures YearVia(Some(last), year, current) == year <==> YearSurvives(last, year, current)
  {
    RRYearIsUniqueInWindow(year % 100, current, year);
  }

  lemma HourReturnedIff(last: Token, meridiem: bool, hour12: bool, hour: nat)
    requires SetsHour(last) && hour <= 23 && (last.Hour12? ==> hour12)
    ensures var raw := HourVia(Some(last), hour);
      var h := if meridiem || hour12 then To24(raw, meridiem && hour >= 12) else raw;
      h == hour <==> HourSurvives(last, meridiem, hour12, hour)
  {}

  /**
   * Round trip, for every format string and every date-time in range: parsing the rendering succeeds
   * and consumes it; month, day, minute and second come back whenever the format mentions them; the
   * year and the hour come back exactly under the conditions above; the rest keeps its default.
   */
  lemma RoundTrip(fmt: string, t: DateTime, current: nat)
    requires InRange(t)
    ensures var toks := Tokens(fmt, 0);
      var n := |toks|;
      var r := Reread(toks, t, current);
      && r.Some?
      && r.value.month == (if Mentions(toks, n, SetsMonth) then t.month else 1)
      && r.value.day == (if Mentions(toks, n, SetsDay) then t.day else 1)
      && r.value.minute == (if Mentions(toks, n, SetsMinute) then t.minute else 0)
      && r.value.second == (if Mentions(toks, n, SetsSecond) then t.second else 0)
      && (match LastOf(toks, n, SetsYear)
          case Some(last) => r.value.year == t.year <==> YearSurvives(last, t.year, current)
          case None => r.value.year == 1970)
      && (match LastOf(toks, n, SetsHour)
          case Some(last) =>
            r.value.hour == t.hour <==>
              HourSurvives(last, Mentions(toks, n, IsMeridiem), Mentions(toks, n, IsHour12), t.hour)
          case None => r.value.hour == if Mentions(toks, n, IsMeridiem) && t.hour >= 12 then 12 else 0)
  {
    var toks := Tokens(fmt, 0);
    var n := |toks|;
    var year, hour := LastOf(toks, n, SetsYear), LastOf(toks, n, SetsHour);
    RenderingIsAccepted(fmt, t, current);
    LastKept(toks, n, SetsYear);
    LastKept(toks, n, SetsHour);
    LastHour12(toks, n);
    if year.Some? { YearReturnedIff(year.value, t.year, current); }
    if hour.Some? { HourReturnedIff(hour.value, Mentions(toks, n, IsMeridiem), Mentions(toks, n, IsHour12), t.hour); }
  }

  lemma {:induction false} LastKept(toks: seq<Token>, k: nat, keep: Token -> bool)
    requires k <= |toks|
    ensures Mentions(toks, k, keep) ==> keep(LastOf(toks, k, keep).value)
  {
    if k > 0 { LastKept(toks, k - 1, keep); }
  }

  lemma {:induction false} LastHour12(toks: seq<Token>, k: nat)
    requires k <= |toks|
    ensures LastOf(toks, k, SetsHour) == Some(Hour12) ==> Mentions(toks, k, IsHour12)
    ensures LastOf(toks, k, SetsHour).None? ==> !Mentions(toks, k, IsHour12)
  {
    if k > 0 { LastHour12(toks, k - 1); }
  }

  /**
   * Hour24 without a 12-hour element or AM/PM, Hour12 with AM/PM, or no hour at all; and a year element
   * that determines the century: then every field the format mentions comes back.
   */
  lemma WellPairedFormatRoundTrips(fmt: string, t: DateTime, current: nat)
    requires InRange(t)
    requires var toks := Tokens(fmt, 0);
      || (!Mentions(toks, |toks|, IsHour12) && !Mentions(toks, |toks|, IsMeridiem))
      || (Mentions(toks, |toks|, IsMeridiem) && Hour24 !in toks)
    requires forall tok | tok in Tokens(fmt, 0) && SetsYear(tok) :: YearSurvives(tok, t.year, current)
    ensures var toks := Tokens(fmt, 0);
      var n, r := |toks|, Reread(toks, t, current);
      && r.Some?
      && (Mentions(toks, n, SetsYear) ==> r.value.year == t.year)
      && (Mentions(toks, n, SetsMonth) ==> r.value.month == t.month)
      && (Mentions(toks, n, SetsDay) ==> r.value.day == t.day)
      && (Mentions(toks, n, SetsHour) ==> r.value.hour == t.hour)
      && (Mentions(toks, n, SetsMinute) ==> r.value.minute == t.minute)
      && (Mentions(toks, n, SetsSecond) ==> r.value.second == t.second)
  {
    var toks := Tokens(fmt, 0);
    RoundTrip(fmt, t, current);
    LastKept(toks, |toks|, SetsYear);
    LastKept(toks, |toks|, SetsHour);
    LastIsMember(toks, |toks|, SetsYear);
    LastIsMember(toks, |toks|, SetsHour);
    LastHour12(toks, |toks|);
  }

  lemma {:induction false} LastIsMember(toks: seq<Token>, k: nat, keep: Token -> bool)
    requires k <= |toks|
    ensures Mentions(toks, k, keep) ==> LastOf(toks, k, keep).value in toks
  {
    if k > 0 { LastIsMember(toks, k - 1, keep); }
  }

  lemma TwoDigitFormat()
    ensures Tokens("YY", 0) == [Year2]
  {
    assert Matches("YY", 0, "YY");
    ElementIsLongestMatch("YY", 0, "YY");
    hide ElementAt;
    hide Matches;
    assert Tokens("YY", 0) == [Year2] + Tokens("YY", 2);
  }

  lemma DoubleFormat()
    ensures Tokens("HH24AM", 0) == [Hour24, Meridiem]
  {
    assert Matches("HH24AM", 0, "HH24") && Matches("HH24AM", 4, "AM");
    LongerKeywordsFirst("HH24AM", 0, "HH24");
    ElementIsLongestMatch("HH24AM", 0, "HH24");
    ElementIsLongestMatch("HH24AM", 4, "AM");
    hide ElementAt;
    hide Matches;
    assert Tokens("HH24AM", 0) == [Hour24] + Tokens("HH24AM", 4);
    assert Tokens("HH24AM", 4) == [Meridiem] + Tokens("HH24AM", 6);
  }

  lemma ExpectedTwoDigit(t: DateTime, current: nat)
    requires InRange(t)
    ensures Finished(Expected([Year2], t, current, 1)) == DateTime(2000 + t.year % 100, 1, 1, 0, 0, 0)
  {
    hide RenderedUpTo;
    hide RRYearOf;
  }

  lemma ExpectedDouble(t: DateTime, current: nat)
    requires InRange(t) && t.hour == 13
    ensures Finished(Expected([Hour24, Meridiem], t, current, 2)) == DateTime(1970, 1, 1, 25, 0, 0)
  {
    hide RenderedUpTo;
    hide RRYearOf;
  }

  /** A two-digit year forgets its century: 1999 written as YY is read as 2099. */
  lemma TwoDigitYearWitness(current: nat)
    ensures var t := DateTime(1999, 12, 31, 23, 59, 59);
      Reread(Tokens("YY", 0), t, current) == Some(DateTime(2099, 1, 1, 0, 0, 0))
  {
    var t := DateTime(1999, 12, 31, 23, 59, 59);
    TwoDigitFormat();
    RenderingIsAccepted("YY", t, current);
    ExpectedTwoDigit(t, current);
    hide Tokens;
    hide Expected;
    hide Finished;
    hide ParseSpec;
    hide RenderedUpTo;
  }

  /** A 24-hour element beside AM/PM is converted again: 13 o'clock comes back as 25. */
  lemma DoubleConversionWitness(current: nat)
    ensures var t := DateTime(1999, 12, 31, 13, 0, 0);
      Reread(Tokens("HH24AM", 0), t, current) == Some(DateTime(1970, 1, 1, 25, 0, 0))
  {
    var t := DateTime(1999, 12, 31, 13, 0, 0);
    DoubleFormat();
    RenderingIsAccepted("HH24AM", t, current);
    ExpectedDouble(t, current);
    hide Tokens;
    hide Expected;
    hide Finished;
    hide ParseSpec;
    hide RenderedUpTo;
  }

  // ---------------------------------------------------------------- what the parser accepts

  function TextWidth(tok: Token): nat {
    if tok.Literal? then 1 else if tok.MonthAbbrev? then 3 else NumberWidth(tok)
  }

  function TotalWidth(toks: seq<Token>, k: nat): nat
    requires k <= |toks|
  {
    if k == 0 then 0 else TotalWidth(toks, k - 1) + TextWidth(toks[k - 1])
  }

  lemma {:induction false} PositionIsTotalWidth(text: string, toks: seq<Token>, current: nat, k: nat)
    requires k <= |toks| && ParsedUpTo(text, toks, current, k).Some?
    ensures ParsedUpTo(text, toks, current, k).value.pos == TotalWidth(toks, k) <= |text|
  {
    if k > 0 { PositionIsTotalWidth(text, toks, current, k - 1); }
  }

  /** The month an English abbreviation names, in calendar order; 0 for any other word. */
  function MonthOf(name: string): nat {
    match name
    case "JAN" => 1
    case "FEB" => 2
    case "MAR" => 3
    case "APR" => 4
    case "MAY" => 5
    case "JUN" => 6
    case "JUL" => 7
    case "AUG" => 8
    case "SEP" => 9
    case "OCT" => 10
    case "NOV" => 11
    case "DEC" => 12
    case _ => 0
  }

  lemma NameIsMonth(m: nat)
    requires 1 <= m <= 12
    ensures MonthOf(MONTHS[m - 1]) == m
  {}

  lemma MonthHasName(name: string)
    requires MonthOf(name) > 0
    ensures MonthOf(name) <= 12 && MONTHS[MonthOf(name) - 1] == name
  {}

  lemma MonthNumberIsMonthOf(name: string)
    ensures MonthNumber(name, 0) == MonthOf(name)
  {
    hide MonthOf;
    hide MonthNumber;
    if MonthOf(name) > 0 {
      MonthHasName(name);
      MonthNameIsFound(MonthOf(name));
    } else if MonthNumber(name, 0) > 0 {
      FoundIsName(name, 0);
      NameIsMonth(MonthNumber(name, 0));
    }
  }

  lemma {:induction false} FoundIsName(name: string, m: nat)
    requires m <= 12 && MonthNumber(name, m) > 0
    ensures MONTHS[MonthNumber(name, m) - 1] == name
    decreases 12 - m
  {
    if m < 12 && MONTHS[m] != name { FoundIsName(name, m + 1); }
  }

  /** The texts an element takes: digits, a month abbreviation or AM/PM in either case, or the literal itself. */
  predicate Fits(tok: Token, piece: string) {
    && |piece| == TextWidth(tok)
    && match tok
       case Literal(c) => piece == [c]
       case MonthAbbrev => MonthOf(UpperCase(piece)) > 0
       case Meridiem => UpperCase(piece) == "AM" || UpperCase(piece) == "PM"
       case _ => AllDigits(piece)
  }

  /** The text an element would read at this position, cut short by the end of the text. */
  function PieceAt(text: string, pos: nat, tok: Token): string {
    if pos > |text| then "" else if pos + TextWidth(tok) > |text| then text[pos..] else text[pos..pos + TextWidth(tok)]
  }

  /** From record p to record q an element took this text: it moved past it and set its own field and no other. */
  ghost predicate Reads(tok: Token, piece: string, current: nat, p: Parsed, q: Parsed) {
    && q.pos == p.pos + |piece|
    && q.t.year == (if tok.Year4? then Value(piece) else if tok.Year2? then 2000 + Value(piece)
                    else if tok.RRYear? && Value(piece) >= 0 then RRYearOf(Value(piece), current) else p.t.year)
    && q.t.month == (if tok.Month? then Value(piece) else if tok.MonthAbbrev? then MonthOf(UpperCase(piece)) else p.t.month)
    && q.t.day == (if tok.Day? then Value(piece) else p.t.day)
    && q.t.hour == (if tok.Hour24? || tok.Hour12? then Value(piece) else p.t.hour)
    && q.t.minute == (if tok.Minute? then Value(piece) else p.t.minute)
    && q.t.second == (if tok.Second? then Value(piece) else p.t.second)
    && q.isPm == (if tok.Meridiem? then UpperCase(piece) == "PM" else p.isPm)
    && q.hasMeridiem == (tok.Meridiem? || tok.Hour12? || p.hasMeridiem)
  }

  lemma MonthReads(text: string, current: nat, p: Parsed)
    ensures var piece, r := PieceAt(text, p.pos, MonthAbbrev), ParseMonthName(text, p);
      (r.Some? <==> Fits(MonthAbbrev, piece)) && (r.Some? ==> Reads(MonthAbbrev, piece, current, p, r.value))
  {
    MonthNumberIsMonthOf(UpperCase(PieceAt(text, p.pos, MonthAbbrev)));
    hide MonthOf;
    hide MonthNumber;
  }

  lemma MeridiemReads(text: string, current: nat, p: Parsed)
    ensures var piece, r := PieceAt(text, p.pos, Meridiem), ParseMeridiem(text, p);
      (r.Some? <==> Fits(Meridiem, piece)) && (r.Some? ==> Reads(Meridiem, piece, current, p, r.value))
  {
    var piece := PieceAt(text, p.pos, Meridiem);
    if |piece| == 2 { assert UpperCase(piece) == [Upper(piece[0]), Upper(piece[1])]; }
    hide Upper;
    hide UpperCase;
  }

  lemma NumberReads(text: string, tok: Token, current: nat, p: Parsed)
    requires IsNumeric(tok)
    ensures var piece, r := PieceAt(text, p.pos, tok), ParseElement(text, tok, current, p);
      (r.Some? <==> Fits(tok, piece)) && (r.Some? ==> Reads(tok, piece, current, p, r.value))
  {
    var piece := PieceAt(text, p.pos, tok);
    if AllDigits(piece) { ValueNonNegative(piece); }
    hide Value;
    hide RRYearOf;
  }

  /**
   * What reading one element does, for every text and position: it is taken exactly when the text there fits,
   * moves past it, and sets its own field to what the text says and no other.
   */
  lemma ElementReads(text: string, tok: Token, current: nat, p: Parsed)
    ensures var piece, r := PieceAt(text, p.pos, tok), ParseElement(text, tok, current, p);
      (r.Some? <==> Fits(tok, piece)) && (r.Some? ==> Reads(tok, piece, current, p, r.value))
  {
    if tok.MonthAbbrev? {
      MonthReads(text, current, p);
    } else if tok.Meridiem? {
      MeridiemReads(text, current, p);
    } else if tok.Literal? {
      var piece := PieceAt(text, p.pos, tok);
      if |piece| == 1 { assert piece == [piece[0]]; }
    } else {
      NumberReads(text, tok, current, p);
    }
  }

  /** Words are read in any mixture of cases. */
  lemma WordReadIff(piece: string, word: string)
    requires NoSmallLetter(word)
    ensures UpperCase(piece) == word <==> SpelledAlike(piece, word)
  {
    forall k | 0 <= k < |word| && k < |piece| ensures Upper(piece[k]) == word[k] <==> piece[k] == word[k] || CasePair(piece[k], word[k]) {
      UpperIs(piece[k], word[k]);
    }
    if SpelledAlike(piece, word) { assert forall k | 0 <= k < |word| :: UpperCase(piece)[k] == word[k]; }
    if UpperCase(piece) == word { assert forall k | 0 <= k < |word| :: UpperCase(piece)[k] == Upper(piece[k]); }
  }

  /** The text of element k when the elements before it took their widths. */
  function PieceOf(text: string, toks: seq<Token>, k: nat): string
    requires k < |toks|
  {
    PieceAt(text, TotalWidth(toks, k), toks[k])
  }

  lemma {:induction false} ParsedIff(text: string, toks: seq<Token>, current: nat, n: nat)
    requires n <= |toks|
    ensures ParsedUpTo(text, toks, current, n).Some? <==> forall k: nat | k < n :: Fits(toks[k], PieceOf(text, toks, k))
    decreases n
  {
    hide Fits;
    hide Reads;
    hide ParseElement;
    hide TotalWidth;
    hide TextWidth;
    if n > 0 {
      ParsedIff(text, toks, current, n - 1);
      var before := ParsedUpTo(text, toks, current, n - 1);
      if before.Some? {
        PositionIsTotalWidth(text, toks, current, n - 1);
        ElementReads(text, toks[n - 1], current, before.value);
      }
    }
  }

  /**
   * The texts a format accepts, exactly: each element's text fits it, one after the other, and nothing is left
   * over.
   */
  lemma AcceptedIff(text: string, toks: seq<Token>, current: nat)
    ensures ParseSpec(text, toks, current).Some? <==>
      |text| == TotalWidth(toks, |toks|) && forall k: nat | k < |toks| :: Fits(toks[k], PieceOf(text, toks, k))
  {
    ParsedIff(text, toks, current, |toks|);
    if ParsedUpTo(text, toks, current, |toks|).Some? { PositionIsTotalWidth(text, toks, current, |toks|); }
  }

  /** A month outside the year is shown as text that no format reads back. */
  lemma BadMonthIsNotRead(t: DateTime)
    requires t.month < 1 || t.month > 12
    ensures Rendered(MonthAbbrev, t) == "???" && !Fits(MonthAbbrev, Rendered(MonthAbbrev, t))
  {
    assert UpperCase("???") == "???";
  }

  /** A month is shown by its own abbreviation, the half of the day by its own letters. */
  lemma WordsShown(t: DateTime)
    requires InRange(t)
    ensures MonthOf(Rendered(MonthAbbrev, t)) == t.month
    ensures Rendered(Meridiem, t) == "PM" <==> t.hour >= 12
    ensures Rendered(Meridiem, t) == "AM" <==> t.hour < 12
  {
    NameIsMonth(t.month);
  }

  /** Short input and leftover input are both rejected: an accepted text has exactly the format's width. */
  lemma AcceptedTextHasFormatWidth(text: string, toks: seq<Token>, current: nat)
    requires ParseSpec(text, toks, current).Some?
    ensures |text| == TotalWidth(toks, |toks|)
  {
    PositionIsTotalWidth(text, toks, current, |toks|);
  }
}
