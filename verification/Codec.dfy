/** The text under which a lock is stored: a JSON object (RFC 8259) whose timestamp is written
 * as RFC 3339 asks (section 5.6), with the fraction of a second cut to its significant digits.
 */
module Codec {
  import opened Model

  /* ----- decimal numbers of fixed width ----- */

  function Pow10(w: nat): nat { if w == 0 then 1 else 10 * Pow10(w - 1) }

  function Digit(d: nat): char
    requires d < 10
  {
    '0' + d as char
  }

  predicate IsDigit(c: char) { '0' <= c <= '9' }

  predicate AllDigits(s: string) { forall i :: 0 <= i < |s| ==> IsDigit(s[i]) }

  /** The last `w` decimal digits of `n`. */
  function Pad(n: nat, w: nat): (s: string)
    ensures |s| == w && AllDigits(s)
  {
    if w == 0 then "" else Pad(n / 10, w - 1) + [Digit(n % 10)]
  }

  function Number(s: string): nat
    requires AllDigits(s)
  {
    if s == "" then 0 else 10 * Number(s[..|s| - 1]) + (s[|s| - 1] as nat - '0' as nat)
  }

  lemma {:induction false} NumberOfPad(n: nat, w: nat)
    requires n < Pow10(w)
    ensures Number(Pad(n, w)) == n
  {
    if w > 0 {
      NumberOfPad(n / 10, w - 1);
      var s := Pad(n, w);
      assert s[..|s| - 1] == Pad(n / 10, w - 1);
    }
  }

  /* ----- timestamps ----- */

  function TrimZeros(s: string): string {
    if s != "" && s[|s| - 1] == '0' then TrimZeros(s[..|s| - 1]) else s
  }

  function FillZeros(s: string, w: nat): string
    decreases w - |s|
  {
    if |s| < w then FillZeros(s + "0", w) else s
  }

  lemma {:induction false} FillOfTrim(s: string, w: nat)
    requires |s| <= w
    ensures FillZeros(TrimZeros(s), w) == FillZeros(s, w)
  {
    if s != "" && s[|s| - 1] == '0' {
      FillOfTrim(s[..|s| - 1], w);
      assert s[..|s| - 1] + "0" == s;
    }
  }

  lemma {:induction false} TrimIsPrefix(s: string)
    ensures TrimZeros(s) <= s && (TrimZeros(s) == "" ==> forall i :: 0 <= i < |s| ==> s[i] == '0')
  {
    if s != "" && s[|s| - 1] == '0' {
      TrimIsPrefix(s[..|s| - 1]);
    }
  }

  lemma {:induction false} ZerosAreZero(s: string)
    requires forall i :: 0 <= i < |s| ==> s[i] == '0'
    ensures AllDigits(s) && Number(s) == 0
  {
    if s != "" {
      ZerosAreZero(s[..|s| - 1]);
    }
  }

  function PrintFraction(nanos: nat): string {
    if nanos == 0 then "" else "." + TrimZeros(Pad(nanos, 9))
  }

  function PrintZone(offset: int): string
    requires -1440 < offset < 1440
  {
    if offset == 0 then "Z"
    else if offset < 0 then "-" + PrintPair(-offset / 60, -offset % 60)
    else "+" + PrintPair(offset / 60, offset % 60)
  }

  /** Two fields of two digits, as in `hh:mm`. */
  function PrintPair(a: nat, b: nat): (s: string)
    ensures |s| == 5
  {
    Pad(a, 2) + ":" + Pad(b, 2)
  }

  function PrintDate(year: nat, month: nat, day: nat): (s: string)
    ensures |s| == 10
  {
    Pad(year, 4) + "-" + Pad(month, 2) + "-" + Pad(day, 2)
  }

  function PrintClock(hour: nat, minute: nat, second: nat): (s: string)
    ensures |s| == 8
  {
    PrintPair(hour, minute) + ":" + Pad(second, 2)
  }

  function PrintTime(t: Timestamp): string {
    PrintDate(t.year, t.month, t.day) + "T" + PrintClock(t.hour, t.minute, t.second)
    + (PrintFraction(t.nanos) + PrintZone(t.offset))
  }

  /** The digits at the front of `s`. */
  function LeadingDigits(s: string): (k: nat)
    ensures k <= |s| && AllDigits(s[..k])
  {
    if s != "" && IsDigit(s[0]) then
      assert s[..1 + LeadingDigits(s[1..])] == [s[0]] + s[1..][..LeadingDigits(s[1..])];
      1 + LeadingDigits(s[1..])
    else 0
  }

  lemma {:induction false} LeadingDigitsEnd(s: string, rest: string)
    requires AllDigits(s) && (rest == "" || !IsDigit(rest[0]))
    ensures LeadingDigits(s + rest) == |s|
  {
    if s == "" {
      assert s + rest == rest;
    } else {
      assert (s + rest)[1..] == s[1..] + rest;
      LeadingDigitsEnd(s[1..], rest);
    }
  }

  /** The nanoseconds, and what follows them. */
  function ParseFraction(s: string): Option<(nat, string)> {
    if s == "" || s[0] != '.' then Some((0, s)) else
      var k := LeadingDigits(s[1..]);
      if k == 0 || k > 9 then None else
        FillKeepsDigits(s[1..][..k], 9);
        Some((Number(FillZeros(s[1..][..k], 9)), s[1..][k..]))
  }

  lemma {:induction false} FillKeepsDigits(s: string, w: nat)
    requires AllDigits(s)
    ensures AllDigits(FillZeros(s, w))
    decreases w - |s|
  {
    if |s| < w {
      FillKeepsDigits(s + "0", w);
    }
  }

  function ParsePair(s: string): Option<(nat, nat)> {
    if |s| == 5 && AllDigits(s[..2]) && s[2] == ':' && AllDigits(s[3..])
    then Some((Number(s[..2]), Number(s[3..]))) else None
  }

  function ParseDate(s: string): Option<(nat, nat, nat)> {
    if |s| == 10 && AllDigits(s[..4]) && s[4] == '-' && AllDigits(s[5..7]) && s[7] == '-' && AllDigits(s[8..])
    then Some((Number(s[..4]), Number(s[5..7]), Number(s[8..]))) else None
  }

  function ParseClock(s: string): Option<(nat, nat, nat)> {
    if |s| == 8 && ParsePair(s[..5]).Some? && s[5] == ':' && AllDigits(s[6..])
    then Some((ParsePair(s[..5]).value.0, ParsePair(s[..5]).value.1, Number(s[6..]))) else None
  }

  function ParseZone(s: string): Option<int> {
    if s == "Z" then Some(0)
    else if s == "" || (s[0] != '+' && s[0] != '-') then None
    else match ParsePair(s[1..])
      case None => None
      case Some((hours, minutes)) =>
        if hours < 24 && minutes < 60 then
          Some(if s[0] == '-' then -(60 * hours + minutes) else 60 * hours + minutes)
        else None
  }

  function ParseTime(s: string): Option<Timestamp> {
    if |s| < 19 || s[10] != 'T' then None else
      match (ParseDate(s[..10]), ParseClock(s[11..19]), ParseFraction(s[19..]))
      case (Some((year, month, day)), Some((hour, minute, second)), Some((nanos, rest))) =>
        (match ParseZone(rest)
         case None => None
         case Some(offset) =>
           var r := Reading(year, month, day, hour, minute, second, nanos, offset);
           if r.Valid() then Some(r) else None)
      case _ => None
  }

  lemma Slices(x: string, y: string)
    ensures (x + y)[..|x|] == x && (x + y)[|x|..] == y
  {
  }

  lemma FractionParses(s: string, digits: string, rest: string)
    requires s == "." + digits && AllDigits(digits) && 1 <= |digits| <= 9 && (rest == "" || !IsDigit(rest[0]))
    ensures AllDigits(FillZeros(digits, 9))
    ensures ParseFraction(s + rest) == Some((Number(FillZeros(digits, 9)), rest))
  {
    Reassociate(".", digits, rest);
    Slices(".", digits + rest);
    Slices(digits, rest);
    LeadingDigitsEnd(digits, rest);
    FillKeepsDigits(digits, 9);
  }

  /** The digits of a printed fraction determine the nanoseconds. */
  lemma PrintedFraction(nanos: nat) returns (kept: string)
    requires 0 < nanos < 1_000_000_000
    ensures PrintFraction(nanos) == "." + kept && AllDigits(kept) && 1 <= |kept| <= 9
    ensures AllDigits(FillZeros(kept, 9)) && Number(FillZeros(kept, 9)) == nanos
  {
    var digits := Pad(nanos, 9);
    kept := TrimZeros(digits);
    PowersOfTen();
    NumberOfPad(nanos, 9);
    TrimIsPrefix(digits);
    if kept == "" {
      ZerosAreZero(digits);
    }
    FillOfTrim(digits, 9);
  }

  lemma FractionRoundTrip(nanos: nat, rest: string)
    requires nanos < 1_000_000_000 && rest != "" && !IsDigit(rest[0]) && rest[0] != '.'
    ensures ParseFraction(PrintFraction(nanos) + rest) == Some((nanos, rest))
  {
    if nanos == 0 {
      assert PrintFraction(nanos) + rest == rest;
    } else {
      var kept := PrintedFraction(nanos);
      FractionParses(PrintFraction(nanos), kept, rest);
    }
  }

  lemma PowersOfTen()
    ensures Pow10(2) == 100 && Pow10(4) == 10_000 && Pow10(9) == 1_000_000_000
  {
  }

  lemma PairRoundTrip(a: nat, b: nat)
    requires a < 100 && b < 100
    ensures ParsePair(PrintPair(a, b)) == Some((a, b))
  {
    PowersOfTen();
    NumberOfPad(a, 2);
    NumberOfPad(b, 2);
    var s := PrintPair(a, b);
    assert s[..2] == Pad(a, 2) && s[3..] == Pad(b, 2);
  }

  lemma DateRoundTrip(year: nat, month: nat, day: nat)
    requires year < 10_000 && month < 100 && day < 100
    ensures ParseDate(PrintDate(year, month, day)) == Some((year, month, day))
  {
    PowersOfTen();
    NumberOfPad(year, 4);
    NumberOfPad(month, 2);
    NumberOfPad(day, 2);
    var s := PrintDate(year, month, day);
    assert s[..4] == Pad(year, 4) && s[5..7] == Pad(month, 2) && s[8..] == Pad(day, 2);
  }

  lemma ClockRoundTrip(hour: nat, minute: nat, second: nat)
    requires hour < 100 && minute < 100 && second < 100
    ensures ParseClock(PrintClock(hour, minute, second)) == Some((hour, minute, second))
  {
    PowersOfTen();
    NumberOfPad(second, 2);
    PairRoundTrip(hour, minute);
    var s := PrintClock(hour, minute, second);
    assert s[..5] == PrintPair(hour, minute) && s[6..] == Pad(second, 2);
  }

  lemma ZoneRoundTrip(offset: int)
    requires -1440 < offset < 1440
    ensures ParseZone(PrintZone(offset)) == Some(offset)
    ensures PrintZone(offset) != "" && !IsDigit(PrintZone(offset)[0]) && PrintZone(offset)[0] != '.'
  {
    if offset != 0 {
      var minutes := if offset < 0 then -offset else offset;
      PairRoundTrip(minutes / 60, minutes % 60);
      assert PrintZone(offset)[1..] == PrintPair(minutes / 60, minutes % 60);
    }
  }

  /** A printed timestamp reads back as the same wall-clock reading. */
  lemma TimeRoundTrip(t: Timestamp)
    ensures ParseTime(PrintTime(t)) == Some(t)
  {
    var date, clock := PrintDate(t.year, t.month, t.day), PrintClock(t.hour, t.minute, t.second);
    var rest := PrintFraction(t.nanos) + PrintZone(t.offset);
    var s := PrintTime(t);
    assert s == date + "T" + clock + rest;
    assert s[..10] == date && s[11..19] == clock && s[19..] == rest;
    DateRoundTrip(t.year, t.month, t.day);
    ClockRoundTrip(t.hour, t.minute, t.second);
    ZoneRoundTrip(t.offset);
    FractionRoundTrip(t.nanos, PrintZone(t.offset));
  }

  /** `s` has at `i` the decimal digits of `n`, two of them. */
  predicate PairAt(s: string, i: nat, n: nat) {
    i + 1 < |s| && s[i] as int == '0' as int + n / 10 && s[i + 1] as int == '0' as int + n % 10
  }

  lemma PairShifts(x: string, y: string, i: nat, n: nat)
    requires PairAt(y, i, n)
    ensures PairAt(x + y, |x| + i, n)
  {
  }

  /** Where the parts of a printed timestamp stand: date and time of day at the front, zone at
      the end, and between them a fraction of a second only if there is one. */
  lemma TimeLayout(t: Timestamp)
    ensures DateTimeAt(PrintTime(t), t) && ZoneAt(PrintTime(t), t.offset)
    ensures |PrintTime(t)| >= 20 && (PrintTime(t)[19] == '.' <==> t.nanos != 0)
  {
    var front := PrintDate(t.year, t.month, t.day) + "T" + PrintClock(t.hour, t.minute, t.second);
    DateTimeLayout(t);
    ZoneLayout(t.offset);
    PartsLayout(front, PrintFraction(t.nanos), PrintZone(t.offset), t);
  }

  lemma PartsLayout(front: string, fraction: string, zone: string, t: Timestamp)
    requires |front| == 19 && DateTimeAt(front, t)
    requires ZoneAt(zone, t.offset) && zone != "" && zone[0] != '.'
    requires if t.nanos == 0 then fraction == "" else fraction != "" && fraction[0] == '.'
    ensures var s := front + (fraction + zone);
      && DateTimeAt(s, t) && ZoneAt(s, t.offset) && |s| >= 20 && (s[19] == '.' <==> t.nanos != 0)
  {
    DateTimeStays(front, fraction + zone, t);
    Reassociate(front, fraction, zone);
    ZoneShifts(front + fraction, zone, t.offset);
  }

  predicate DateTimeAt(s: string, t: Timestamp) {
    && |s| >= 19 && s[4] == '-' && s[7] == '-' && s[10] == 'T' && s[13] == ':' && s[16] == ':'
    && PairAt(s, 0, t.year / 100) && PairAt(s, 2, t.year % 100) && PairAt(s, 5, t.month) && PairAt(s, 8, t.day)
    && PairAt(s, 11, t.hour) && PairAt(s, 14, t.minute) && PairAt(s, 17, t.second)
  }

  predicate ZoneAt(s: string, offset: int) {
    if offset == 0 then s != "" && s[|s| - 1] == 'Z' else
      && |s| >= 6 && s[|s| - 6] == (if offset < 0 then '-' else '+') && s[|s| - 3] == ':'
      && var minutes := if offset < 0 then -offset else offset;
         PairAt(s, |s| - 5, minutes / 60) && PairAt(s, |s| - 2, minutes % 60)
  }

  lemma DateTimeStays(s: string, rest: string, t: Timestamp)
    requires DateTimeAt(s, t)
    ensures DateTimeAt(s + rest, t)
  {
  }

  lemma ZoneShifts(front: string, s: string, offset: int)
    requires ZoneAt(s, offset)
    ensures ZoneAt(front + s, offset)
  {
    if offset != 0 {
      var minutes := if offset < 0 then -offset else offset;
      PairShifts(front, s, |s| - 5, minutes / 60);
      PairShifts(front, s, |s| - 2, minutes % 60);
    }
  }

  lemma DateTimeLayout(t: Timestamp)
    ensures DateTimeAt(PrintDate(t.year, t.month, t.day) + "T" + PrintClock(t.hour, t.minute, t.second), t)
  {
    var date, clock := PrintDate(t.year, t.month, t.day), PrintClock(t.hour, t.minute, t.second);
    DateLayout(t.year, t.month, t.day);
    ClockLayout(t.hour, t.minute, t.second);
    PairShifts(date + "T", clock, 0, t.hour);
    PairShifts(date + "T", clock, 3, t.minute);
    PairShifts(date + "T", clock, 6, t.second);
  }

  /** A fraction of a second is written by its nine digits, cut after the last that is not 0. */
  lemma FractionLayout(nanos: nat)
    requires 0 < nanos < 1_000_000_000
    ensures var s, digits := PrintFraction(nanos), Pad(nanos, 9);
      && 2 <= |s| <= 10 && s == "." + digits[..|s| - 1] && s[|s| - 1] != '0'
      && forall i :: |s| - 1 <= i < 9 ==> digits[i] == '0'
  {
    PowersOfTen();
    NumberOfPad(nanos, 9);
    CutAtLast(Pad(nanos, 9));
    if TrimZeros(Pad(nanos, 9)) == "" {
      ZerosAreZero(Pad(nanos, 9));
    }
  }

  lemma {:induction false} CutAtLast(s: string)
    ensures TrimZeros(s) <= s && (TrimZeros(s) != "" ==> TrimZeros(s)[|TrimZeros(s)| - 1] != '0')
    ensures forall i :: |TrimZeros(s)| <= i < |s| ==> s[i] == '0'
  {
    if s != "" && s[|s| - 1] == '0' {
      CutAtLast(s[..|s| - 1]);
    }
  }

  lemma TwoDigits(n: nat)
    requires n < 100
    ensures |Pad(n, 2)| == 2 && PairAt(Pad(n, 2), 0, n)
  {
    assert Pad(n, 2) == Pad(n / 10, 1) + [Digit(n % 10)];
    assert Pad(n / 10, 1) == Pad(n / 100, 0) + [Digit(n / 10 % 10)];
  }

  lemma FourDigits(n: nat)
    requires n < 10_000
    ensures PairAt(Pad(n, 4), 0, n / 100) && PairAt(Pad(n, 4), 2, n % 100)
  {
    assert Pad(n, 4) == Pad(n / 10, 3) + [Digit(n % 10)];
    assert Pad(n / 10, 3) == Pad(n / 100, 2) + [Digit(n / 10 % 10)] by { assert n / 10 / 10 == n / 100; }
    TwoDigits(n / 100);
  }

  lemma DateLayout(year: nat, month: nat, day: nat)
    requires year < 10_000 && month < 100 && day < 100
    ensures var s := PrintDate(year, month, day);
      && s[4] == '-' && s[7] == '-' && PairAt(s, 0, year / 100) && PairAt(s, 2, year % 100)
      && PairAt(s, 5, month) && PairAt(s, 8, day)
  {
    FourDigits(year);
    TwoDigits(month);
    TwoDigits(day);
  }

  lemma ClockLayout(hour: nat, minute: nat, second: nat)
    requires hour < 100 && minute < 100 && second < 100
    ensures var s := PrintClock(hour, minute, second);
      s[2] == ':' && s[5] == ':' && PairAt(s, 0, hour) && PairAt(s, 3, minute) && PairAt(s, 6, second)
  {
    TwoDigits(hour);
    TwoDigits(minute);
    TwoDigits(second);
  }

  lemma ZoneLayout(offset: int)
    requires -1440 < offset < 1440
    ensures ZoneAt(PrintZone(offset), offset) && PrintZone(offset) != "" && PrintZone(offset)[0] != '.'
  {
    var minutes := if offset < 0 then -offset else offset;
    TwoDigits(minutes / 60);
    TwoDigits(minutes % 60);
  }

  /* ----- JSON strings (section 7 of RFC 8259) ----- */

  function HexDigit(d: nat): char
    requires d < 16
  {
    if d < 10 then '0' + d as char else 'a' + (d - 10) as char
  }

  function HexValue(c: char): Option<nat> {
    if '0' <= c <= '9' then Some(c as nat - '0' as nat)
    else if 'a' <= c <= 'f' then Some(c as nat - 'a' as nat + 10)
    else if 'A' <= c <= 'F' then Some(c as nat - 'A' as nat + 10)
    else None
  }

  function Pow16(w: nat): nat { if w == 0 then 1 else 16 * Pow16(w - 1) }

  /** The last `w` hexadecimal digits of `n`. */
  function HexPad(n: nat, w: nat): (s: string)
    ensures |s| == w
  {
    if w == 0 then "" else HexPad(n / 16, w - 1) + [HexDigit(n % 16)]
  }

  function HexNumber(s: string): Option<nat> {
    if s == "" then Some(0) else
      match (HexNumber(s[..|s| - 1]), HexValue(s[|s| - 1]))
      case (Some(high), Some(low)) => Some(16 * high + low)
      case _ => None
  }

  lemma HexDigitRoundTrip(d: nat)
    requires d < 16
    ensures HexDigit(d) == "0123456789abcdef"[d] && HexValue(HexDigit(d)) == Some(d)
  {
  }

  lemma {:induction false} HexRoundTrip(n: nat, w: nat)
    requires n < Pow16(w)
    ensures HexNumber(HexPad(n, w)) == Some(n)
  {
    if w > 0 {
      assert Pow16(w) == 16 * Pow16(w - 1) && n / 16 < Pow16(w - 1);
      HexRoundTrip(n / 16, w - 1);
      HexDigitRoundTrip(n % 16);
      var s := HexPad(n, w);
      assert s[..|s| - 1] == HexPad(n / 16, w - 1) && s[|s| - 1] == HexDigit(n % 16);
    }
  }

  /** The characters written as `\uXXXX`: controls without a short form, the characters that
      are special in HTML, and the two line separators of JavaScript. */
  predicate NeedsHex(c: char) {
    c < ' ' || c == '<' || c == '>' || c == '&' || c == '\U{2028}' || c == '\U{2029}'
  }

  /** The letter that stands for `c` after a backslash. */
  function ShortForm(c: char): Option<char> {
    match c
    case '\"' => Some('\"')
    case '\\' => Some('\\')
    case '\U{8}' => Some('b')
    case '\U{c}' => Some('f')
    case '\n' => Some('n')
    case '\r' => Some('r')
    case '\t' => Some('t')
    case _ => None
  }

  /** The character that a letter after a backslash stands for. */
  function LongForm(c: char): Option<char> {
    match c
    case '\"' => Some('\"')
    case '\\' => Some('\\')
    case '/' => Some('/')
    case 'b' => Some('\U{8}')
    case 'f' => Some('\U{c}')
    case 'n' => Some('\n')
    case 'r' => Some('\r')
    case 't' => Some('\t')
    case _ => None
  }

  function Escape(c: char): string {
    if ShortForm(c).Some? then ['\\', ShortForm(c).value]
    else if NeedsHex(c) then ['\\', 'u'] + HexPad(c as nat, 4)
    else [c]
  }

  function EscapeAll(s: string): string {
    if s == "" then "" else Escape(s[0]) + EscapeAll(s[1..])
  }

  function Quote(s: string): string { "\"" + EscapeAll(s) + "\"" }

  /** One character of a string's body, and what follows it. */
  function ParseChar(s: string): Option<(char, string)>
    requires s != ""
  {
    if s[0] < ' ' then None
    else if s[0] != '\\' then Some((s[0], s[1..]))
    else if |s| >= 6 && s[1] == 'u' then
      (match HexNumber(s[2..6])
       case Some(n) => if n < 0xD800 || 0xE000 <= n < 0x1_0000 then Some((n as char, s[6..])) else None
       case None => None)
    else if |s| >= 2 && LongForm(s[1]).Some? then Some((LongForm(s[1]).value, s[2..]))
    else None
  }

  /** The body of a string up to its closing quote, and what follows the quote. */
  function ParseBody(s: string): (r: Option<(string, string)>)
    ensures r.Some? ==> |r.value.1| < |s|
    decreases |s|
  {
    if s == "" then None
    else if s[0] == '\"' then Some(("", s[1..]))
    else match ParseChar(s)
      case None => None
      case Some((c, rest)) =>
        match ParseBody(rest)
        case None => None
        case Some((cs, rest')) => Some(([c] + cs, rest'))
  }

  function ParseString(s: string): Option<(string, string)> {
    if s != "" && s[0] == '\"' then ParseBody(s[1..]) else None
  }

  lemma ShortRoundTrip(c: char)
    requires ShortForm(c).Some?
    ensures ShortForm(c).value != 'u' && LongForm(ShortForm(c).value) == Some(c)
  {
  }

  lemma CharRoundTrip(c: char, rest: string)
    ensures Escape(c) != "" && Escape(c)[0] != '\"'
    ensures ParseChar(Escape(c) + rest) == Some((c, rest))
  {
    var s := Escape(c) + rest;
    if ShortForm(c).Some? {
      ShortRoundTrip(c);
      assert s[2..] == rest;
    } else if NeedsHex(c) {
      assert Pow16(4) == 16 * 16 * Pow16(2);
      HexRoundTrip(c as nat, 4);
      assert s[2..6] == HexPad(c as nat, 4) && s[6..] == rest;
    } else {
      assert s[1..] == rest;
    }
  }

  lemma BodyStep(c: char, s: string)
    requires ParseBody(s).Some?
    ensures ParseBody(Escape(c) + s) == Some(([c] + ParseBody(s).value.0, ParseBody(s).value.1))
  {
    CharRoundTrip(c, s);
    assert (Escape(c) + s)[0] == Escape(c)[0];
  }

  lemma {:induction false} BodyRoundTrip(s: string, rest: string)
    ensures ParseBody(EscapeAll(s) + ("\"" + rest)) == Some((s, rest))
  {
    if s == "" {
      assert EscapeAll(s) + ("\"" + rest) == "\"" + rest;
      assert ("\"" + rest)[1..] == rest;
    } else {
      BodyRoundTrip(s[1..], rest);
      BodyStep(s[0], EscapeAll(s[1..]) + ("\"" + rest));
      Reassociate(Escape(s[0]), EscapeAll(s[1..]), "\"" + rest);
      assert [s[0]] + s[1..] == s;
    }
  }

  /** A quoted string reads back as itself, whatever its characters. */
  lemma StringRoundTrip(s: string, rest: string)
    ensures ParseString(Quote(s) + rest) == Some((s, rest))
  {
    BodyRoundTrip(s, rest);
    assert (Quote(s) + rest)[1..] == EscapeAll(s) + ("\"" + rest);
  }

  /** How characters are written: with a short escape, as they are, or by four hexadecimal digits
      (`FourHexDigits`). */
  lemma EscapeTable(c: char)
    ensures match c
      case '\"' => Escape(c) == "\\\""
      case '\\' => Escape(c) == "\\\\"
      case '\U{8}' => Escape(c) == "\\b"
      case '\U{c}' => Escape(c) == "\\f"
      case '\n' => Escape(c) == "\\n"
      case '\r' => Escape(c) == "\\r"
      case '\t' => Escape(c) == "\\t"
      case _ =>
        if c < ' ' || c in ['<', '>', '&', '\U{2028}', '\U{2029}']
        then Escape(c) == "\\u" + HexPad(c as nat, 4) else Escape(c) == [c]
  {
  }

  lemma TwoHexDigits(n: nat, w: nat)
    ensures HexPad(n, w + 2) == HexPad(n / 16 / 16, w) + [HexDigit(n / 16 % 16), HexDigit(n % 16)]
  {
    assert HexPad(n, w + 2) == HexPad(n / 16, w + 1) + [HexDigit(n % 16)];
    assert HexPad(n / 16, w + 1) == HexPad(n / 16 / 16, w) + [HexDigit(n / 16 % 16)];
  }

  /** The four digits, the lowest last; `HexDigitRoundTrip` says what each looks like. */
  lemma FourHexDigits(n: nat)
    ensures HexPad(n, 4) == [HexDigit(n / 16 / 16 / 16 % 16), HexDigit(n / 16 / 16 % 16),
                             HexDigit(n / 16 % 16), HexDigit(n % 16)]
  {
    TwoHexDigits(n, 2);
    TwoHexDigits(n / 16 / 16, 0);
  }

  /** Quoting leaves a string as it is unless it has a character that JSON or HTML treats
      specially. */
  lemma PlainQuote(s: string)
    requires forall i :: 0 <= i < |s| ==>
      s[i] >= ' ' && s[i] !in ['\"', '\\', '<', '>', '&', '\U{2028}', '\U{2029}']
    ensures Quote(s) == "\"" + s + "\""
  {
    PlainEscape(s);
  }

  lemma {:induction false} PlainEscape(s: string)
    requires forall i :: 0 <= i < |s| ==>
      s[i] >= ' ' && s[i] !in ['\"', '\\', '<', '>', '&', '\U{2028}', '\U{2029}']
    ensures EscapeAll(s) == s
  {
    if s != "" {
      PlainEscape(s[1..]);
      assert s == [s[0]] + s[1..];
    }
  }

  /* ----- lock objects ----- */

  /** What precedes each value in the text of a lock, and what follows the last. */
  const PROJECT := "{\"project\":"
  const BRANCH := ",\"branch\":"
  const CREATED_AT := ",\"created_at\":"
  const OWNER := ",\"owner\":"
  const END := "}"

  function PrintFields(names: seq<string>, values: seq<string>, end: string): string
    requires |names| == |values|
  {
    if names == [] then end else names[0] + Quote(values[0]) + PrintFields(names[1..], values[1..], end)
  }

  /** The values behind `names`, one after the other, and what follows them. */
  function ParseFields(names: seq<string>, s: string): (r: Option<(seq<string>, string)>)
    ensures r.Some? ==> |r.value.0| == |names|
  {
    if names == [] then Some(([], s))
    else if !(names[0] <= s) then None
    else match ParseString(s[|names[0]|..])
      case None => None
      case Some((value, rest)) =>
        match ParseFields(names[1..], rest)
        case None => None
        case Some((values, rest')) => Some(([value] + values, rest'))
  }

  lemma {:induction false} FieldsRoundTrip(names: seq<string>, values: seq<string>, end: string)
    requires |names| == |values|
    ensures ParseFields(names, PrintFields(names, values, end)) == Some((values, end))
  {
    if names != [] {
      var rest := PrintFields(names[1..], values[1..], end);
      var s := names[0] + Quote(values[0]) + rest;
      assert names[0] <= s && s[|names[0]|..] == Quote(values[0]) + rest;
      StringRoundTrip(values[0], rest);
      FieldsRoundTrip(names[1..], values[1..], end);
      assert [values[0]] + values[1..] == values;
    }
  }

  function Marshal(lock: Lock): string {
    PrintFields([PROJECT, BRANCH, CREATED_AT, OWNER],
                [lock.project, lock.branch, PrintTime(lock.createdAt), lock.owner], END)
  }

  function Unmarshal(s: string): Option<Lock> {
    match ParseFields([PROJECT, BRANCH, CREATED_AT, OWNER], s)
    case None => None
    case Some((values, rest)) =>
      var createdAt := ParseTime(values[2]);
      if rest == END && createdAt.Some? then Some(Lock(values[0], values[1], createdAt.value, values[3])) else None
  }

  lemma FieldsCons(name: string, value: string, names: seq<string>, values: seq<string>, end: string)
    requires |names| == |values|
    ensures PrintFields([name] + names, [value] + values, end) == name + Quote(value) + PrintFields(names, values, end)
  {
    assert ([name] + names)[1..] == names && ([value] + values)[1..] == values;
  }

  /** The stored text: the four members of the object, under their names and in their order. */
  lemma MarshalLayout(lock: Lock)
    ensures Marshal(lock) ==
      "{\"project\":" + Quote(lock.project) + (",\"branch\":" + Quote(lock.branch)
      + (",\"created_at\":" + Quote(PrintTime(lock.createdAt)) + (",\"owner\":" + Quote(lock.owner) + "}")))
  {
    var time := PrintTime(lock.createdAt);
    FieldsCons(OWNER, lock.owner, [], [], END);
    FieldsCons(CREATED_AT, time, [OWNER] + [], [lock.owner] + [], END);
    FieldsCons(BRANCH, lock.branch, [CREATED_AT] + ([OWNER] + []), [time] + ([lock.owner] + []), END);
    FieldsCons(PROJECT, lock.project, [BRANCH] + ([CREATED_AT] + ([OWNER] + [])),
               [lock.branch] + ([time] + ([lock.owner] + [])), END);
    assert [PROJECT, BRANCH, CREATED_AT, OWNER] == [PROJECT] + ([BRANCH] + ([CREATED_AT] + ([OWNER] + [])));
    assert [lock.project, lock.branch, time, lock.owner]
        == [lock.project] + ([lock.branch] + ([time] + ([lock.owner] + [])));
  }

  /** What is stored for a lock reads back as that lock: project, branch, owner and wall-clock
      time, for names of any characters. */
  lemma LockRoundTrip(lock: Lock)
    ensures Unmarshal(Marshal(lock)) == Some(lock)
  {
    TimeRoundTrip(lock.createdAt);
    FieldsRoundTrip([PROJECT, BRANCH, CREATED_AT, OWNER],
                    [lock.project, lock.branch, PrintTime(lock.createdAt), lock.owner], END);
  }

  /** So the holder test on a stored lock decides whether the stored pair is the asked one, and
      different locks are stored as different texts. */
  lemma HolderTestIsExact(lock: Lock, other: Lock)
    ensures Unmarshal(Marshal(lock)).Some?
    ensures Unmarshal(Marshal(lock)).value.HeldBy(other.branch, other.owner)
            <==> (lock.branch, lock.owner) == (other.branch, other.owner)
    ensures Marshal(lock) == Marshal(other) <==> lock == other
  {
    LockRoundTrip(lock);
    LockRoundTrip(other);
  }
}
