/** Durations: stored as a base-62 number of milliseconds, read back as ISO 8601 text with days and a time
    (Schema.mapper and unmapper). */
module Duration {
  import opened Wrappers
  import opened Numerals

  // ---------------------------------------------------------------- printer

  const DAY: nat := 86400000
  const HOUR: nat := 3600000
  const MINUTE: nat := 60000

  function PrintField(n: nat, unit: char): string {
    if n == 0 then "" else Decimal(n) + [unit]
  }

  function PrintSeconds(seconds: nat, millis: nat): string {
    if seconds > 0 && millis > 0 then Decimal(seconds) + ['.'] + Fixed(10, millis, 3) + ['S']
    else if seconds > 0 then Decimal(seconds) + ['S']
    else if millis > 0 then ['0', '.'] + Fixed(10, millis, 3) + ['S']
    else ""
  }

  function PrintClock(hours: nat, minutes: nat, seconds: nat, millis: nat): string {
    PrintField(hours, 'H') + (PrintField(minutes, 'M') + PrintSeconds(seconds, millis))
  }

  function PrintParts(days: nat, hours: nat, minutes: nat, seconds: nat, millis: nat): string {
    var clock := PrintClock(hours, minutes, seconds, millis);
    var hasTime := hours > 0 || minutes > 0 || seconds > 0 || millis > 0;
    var result := ['P'] + (PrintField(days, 'D') + if hasTime then ['T'] + clock else "");
    if result == ['P'] then "PT0S" else result
  }

  function Print(ms: nat): string {
    PrintParts(ms / DAY, ms % DAY / HOUR, ms % HOUR / MINUTE, ms % MINUTE / 1000, ms % 1000)
  }

  // ---------------------------------------------------------------- parser

  function DigitCount(s: string): (n: nat)
    ensures n <= |s|
  {
    if s == "" || !IsDigit(10, s[0]) then 0 else 1 + DigitCount(s[1..])
  }

  /** A captured group, empty when it is absent, and the text after it. */
  datatype Group = Group(text: string, rest: string)

  /** The optional group (\d+)unit; it matches nothing when another unit follows the digits. */
  function Field(s: string, unit: char): Group {
    var n := DigitCount(s);
    if 0 < n < |s| && s[n] == unit then Group(s[..n], s[n + 1..]) else Group("", s)
  }

  /** The optional group (\d+(?:\.\d+)?)S. */
  function SecondsField(s: string): Group {
    var n := DigitCount(s);
    if 0 < n < |s| && s[n] == '.' then
      var k := DigitCount(s[n + 1..]);
      if 0 < k < |s[n + 1..]| && s[n + 1 + k] == 'S' then Group(s[..n + 1 + k], s[n + 2 + k..]) else Group("", s)
    else Field(s, 'S')
  }

  /** parseInt(text || '0', 10) */
  function Number(text: string): nat {
    var n := Decode(10, text);
    if n.Some? then n.value else 0
  }

  /** parseFloat(text || '0') in milliseconds, rounded to the nearest. */
  function SecondsMillis(text: string): nat {
    var n := DigitCount(text);
    if n + 1 < |text| && text[n] == '.' then Number(text[..n]) * 1000 + FractionMillis(text[n + 1..])
        else Number(text) * 1000
  }

  function FractionMillis(digits: string): nat {
    PowPositive(10, |digits|);
    (2000 * Number(digits) + Pow(10, |digits|)) / (2 * Pow(10, |digits|))
  }

  datatype Clock = Clock(hours: string, minutes: string, seconds: string)

  /** What follows the T: hours, minutes and seconds, each optional, and nothing else. */
  function ParseClock(text: string): Option<Clock> {
    var h := Field(text, 'H');
    var m := Field(h.rest, 'M');
    var s := SecondsField(m.rest);
    if s.rest != "" then None else Some(Clock(h.text, m.text, s.text))
  }

  datatype Iso = Iso(days: string, clock: Clock)

  /** The groups of an ISO 8601 duration; None when the text is not in this form. */
  function Groups(text: string): Option<Iso> {
    if text == "" || text[0] != 'P' || |text| == 1 || text == ['P', 'T'] then None
    else
      var d := Field(text[1..], 'D');
      if d.rest == "" then Some(Iso(d.text, Clock("", "", "")))
      else if d.rest[0] != 'T' then None
      else
        var clock := ParseClock(d.rest[1..]);
        if clock.None? then None else Some(Iso(d.text, clock.value))
  }

  function ClockMillis(c: Clock): nat {
    Number(c.hours) * HOUR + Number(c.minutes) * MINUTE + SecondsMillis(c.seconds)
  }

  function IsoMillis(g: Iso): nat { Number(g.days) * DAY + ClockMillis(g.clock) }

  function ParseIso(text: string): Option<nat> {
    var groups := Groups(text);
    if groups.None? then None else Some(IsoMillis(groups.value))
  }

  lemma {:induction false} PowPositive(base: nat, e: nat)
    requires base > 0
    ensures Pow(base, e) > 0
  {
    if e > 0 { PowPositive(base, e - 1); }
  }

  // ---------------------------------------------------------------- the groups of what was printed

  lemma {:induction false} DigitCountOfNumeral(digits: string, tail: string)
    requires IsNumeral(10, digits) && (tail == "" || !IsDigit(10, tail[0]))
    ensures DigitCount(digits + tail) == |digits|
  {
    if digits == "" {
      assert digits + tail == tail;
    } else {
      DigitCountOfNumeral(digits[1..], tail);
      assert (digits + tail)[1..] == digits[1..] + tail;
    }
  }

  /** The printed number in a field; an absent field is an empty group. */
  function FieldText(n: nat): string { if n == 0 then "" else Decimal(n) }

  lemma FieldReads(n: nat, unit: char, rest: string)
    requires n > 0 && !IsDigit(10, unit)
    ensures Field(PrintField(n, unit) + rest, unit) == Group(Decimal(n), rest)
  {
    var digits, s := Decimal(n), PrintField(n, unit) + rest;
    assert s == digits + ([unit] + rest);
    DigitCountOfNumeral(digits, [unit] + rest);
    assert s[..|digits|] == digits && s[|digits|] == unit && s[|digits| + 1..] == rest;
  }

  /** No field of this unit stands in front. */
  predicate Lacks(s: string, unit: char) { Field(s, unit) == Group("", s) }

  lemma FieldSkips(n: nat, other: char, rest: string, unit: char)
    requires !IsDigit(10, other) && other != unit && Lacks(rest, unit)
    ensures Lacks(PrintField(n, other) + rest, unit)
  {
    if n == 0 {
      assert "" + rest == rest;
    } else {
      var digits, s := Decimal(n), PrintField(n, other) + rest;
      assert s == digits + ([other] + rest);
      DigitCountOfNumeral(digits, [other] + rest);
      assert s[|digits|] == other;
    }
  }

  lemma FieldOptional(n: nat, unit: char, rest: string)
    requires !IsDigit(10, unit) && Lacks(rest, unit)
    ensures Field(PrintField(n, unit) + rest, unit) == Group(FieldText(n), rest)
  {
    if n == 0 { assert "" + rest == rest; } else { FieldReads(n, unit, rest); }
  }

  /** The printed seconds without their unit. */
  function SecondsText(seconds: nat, millis: nat): string {
    if millis > 0 then Decimal(seconds) + (['.'] + Fixed(10, millis, 3)) else FieldText(seconds)
  }

  lemma SecondsForm(seconds: nat, millis: nat)
    ensures PrintSeconds(seconds, millis) == if seconds > 0 || millis > 0 then SecondsText(seconds, millis) + ['S']
        else ""
  {
    assert Decimal(0) == ['0'];
  }

  lemma SecondsLack(seconds: nat, millis: nat, unit: char)
    requires unit != 'S' && unit != '.' && !IsDigit(10, unit)
    ensures Lacks(PrintSeconds(seconds, millis), unit)
  {
    SecondsForm(seconds, millis);
    if millis > 0 {
      var tail := ['.'] + Fixed(10, millis, 3) + ['S'];
      DigitCountOfNumeral(Decimal(seconds), tail);
      assert SecondsText(seconds, millis) + ['S'] == Decimal(seconds) + tail;
    } else if seconds > 0 {
      DigitCountOfNumeral(Decimal(seconds), ['S']);
    }
  }

  lemma SecondsFieldAt(s: string, n: nat, k: nat)
    requires 0 < n < |s| && DigitCount(s) == n && s[n] == '.'
    requires 0 < k < |s[n + 1..]| && DigitCount(s[n + 1..]) == k && s[n + 1 + k] == 'S'
    ensures SecondsField(s) == Group(s[..n + 1 + k], s[n + 2 + k..])
  {}

  lemma DottedReads(digits: string, fraction: string)
    requires digits != "" && IsNumeral(10, digits) && fraction != "" && IsNumeral(10, fraction)
    ensures SecondsField(digits + (['.'] + fraction) + ['S']) == Group(digits + (['.'] + fraction), "")
  {
    var s := digits + (['.'] + fraction) + ['S'];
    var tail := fraction + ['S'];
    var n, k := |digits|, |fraction|;
    assert s == digits + (['.'] + tail);
    DigitCountOfNumeral(digits, ['.'] + tail);
    DigitCountOfNumeral(fraction, ['S']);
    assert s[n + 1..] == tail;
    SecondsFieldAt(s, n, k);
    assert s[..n + 1 + k] == digits + (['.'] + fraction) && s[n + 2 + k..] == "";
  }

  lemma SecondsRead(seconds: nat, millis: nat)
    requires millis < 1000
    ensures SecondsField(PrintSeconds(seconds, millis)) == Group(SecondsText(seconds, millis), "")
  {
    SecondsForm(seconds, millis);
    if millis > 0 {
      assert Pow(10, 3) == 1000;
      FixedRoundTrip(10, millis, 3);
      DottedReads(Decimal(seconds), Fixed(10, millis, 3));
    } else if seconds > 0 {
      var digits := Decimal(seconds);
      var s := digits + ['S'];
      DigitCountOfNumeral(digits, ['S']);
      assert s[..|digits|] == digits && s[|digits|] == 'S' && s[|digits| + 1..] == "";
    }
  }

  lemma ClockFrom(text: string, h: Group, m: Group, s: Group)
    requires Field(text, 'H') == h && Field(h.rest, 'M') == m && SecondsField(m.rest) == s && s.rest == ""
    ensures ParseClock(text) == Some(Clock(h.text, m.text, s.text))
  {}

  lemma ClockReads(hours: nat, minutes: nat, seconds: nat, millis: nat)
    requires millis < 1000
    ensures ParseClock(PrintClock(hours, minutes, seconds, millis)) ==
            Some(Clock(FieldText(hours), FieldText(minutes), SecondsText(seconds, millis)))
  {
    var rest := PrintSeconds(seconds, millis);
    var tail := PrintField(minutes, 'M') + rest;
    SecondsLack(seconds, millis, 'H');
    SecondsLack(seconds, millis, 'M');
    FieldSkips(minutes, 'M', rest, 'H');
    FieldOptional(hours, 'H', tail);
    FieldOptional(minutes, 'M', rest);
    SecondsRead(seconds, millis);
    ClockFrom(PrintField(hours, 'H') + tail, Group(FieldText(hours), tail), Group(FieldText(minutes), rest),
              Group(SecondsText(seconds, millis), ""));
  }

  lemma ClockIsLong(hours: nat, minutes: nat, seconds: nat, millis: nat)
    ensures hours > 0 || minutes > 0 || seconds > 0 || millis > 0 ==> |PrintClock(hours, minutes, seconds, millis)| >= 2
  {}

  lemma IsoFrom(body: string, days: string, clock: string)
    requires |body| >= 2 && Field(body, 'D') == Group(days, ['T'] + clock) && ParseClock(clock).Some?
    ensures Groups(['P'] + body) == Some(Iso(days, ParseClock(clock).value))
  {
    var text := ['P'] + body;
    assert text[1..] == body && (['T'] + clock)[1..] == clock;
    assert |text| > 2;
  }

  lemma ParseWithTime(days: nat, clock: string)
    requires |clock| >= 2 && ParseClock(clock).Some?
    ensures Groups(['P'] + (PrintField(days, 'D') + (['T'] + clock))) ==
        Some(Iso(FieldText(days), ParseClock(clock).value))
  {
    assert Lacks(['T'] + clock, 'D');
    FieldOptional(days, 'D', ['T'] + clock);
    IsoFrom(PrintField(days, 'D') + (['T'] + clock), FieldText(days), clock);
  }

  lemma ParseWithoutTime(days: nat)
    requires days > 0
    ensures Groups(['P'] + (PrintField(days, 'D') + "")) == Some(Iso(FieldText(days), Clock("", "", "")))
  {
    var text := ['P'] + (PrintField(days, 'D') + "");
    FieldReads(days, 'D', "");
    assert text[1..] == PrintField(days, 'D') + "";
    assert |text| > 2;
  }

  lemma ParseZero()
    ensures Groups("PT0S") == Some(Iso("", Clock("", "", "0")))
  {
    assert "PT0S"[1..] == "T0S" && "T0S"[1..] == "0S" && "0S"[1..] == "S" && "0S"[..1] == "0" && "0S"[2..] == "";
    assert DigitCount("S") == 0 && DigitCount("0S") == 1;
  }

  // ---------------------------------------------------------------- their value

  lemma FieldValue(n: nat)
    ensures Number(FieldText(n)) == n
  {
    DecodeEncode(10, n);
  }

  lemma FractionValue(millis: nat)
    requires millis < 1000
    ensures |Fixed(10, millis, 3)| == 3 && FractionMillis(Fixed(10, millis, 3)) == millis
  {
    assert Pow(10, 3) == 1000;
    FixedRoundTrip(10, millis, 3);
    assert (2000 * millis + 1000) / 2000 == millis;
  }

  lemma DottedValue(digits: string, fraction: string)
    requires digits != "" && IsNumeral(10, digits) && fraction != ""
    ensures SecondsMillis(digits + (['.'] + fraction)) == Number(digits) * 1000 + FractionMillis(fraction)
  {
    var tail := ['.'] + fraction;
    var text := digits + tail;
    DigitCountOfNumeral(digits, tail);
    assert text[|digits|] == '.' && text[..|digits|] == digits && text[|digits| + 1..] == fraction;
  }

  lemma WholeValue(digits: string)
    requires IsNumeral(10, digits)
    ensures SecondsMillis(digits) == Number(digits) * 1000
  {
    DigitCountOfNumeral(digits, "");
    assert digits + "" == digits;
  }

  lemma SecondsValue(seconds: nat, millis: nat)
    requires millis < 1000
    ensures SecondsMillis(SecondsText(seconds, millis)) == seconds * 1000 + millis
  {
    FieldValue(seconds);
    DecodeEncode(10, seconds);
    if millis > 0 {
      FractionValue(millis);
      DottedValue(Decimal(seconds), Fixed(10, millis, 3));
    } else {
      WholeValue(FieldText(seconds));
    }
  }

  function PrintedGroups(days: nat, hours: nat, minutes: nat, seconds: nat, millis: nat): Iso {
    if days == 0 && hours == 0 && minutes == 0 && seconds == 0 && millis == 0 then Iso("", Clock("", "", "0"))
    else Iso(FieldText(days), Clock(FieldText(hours), FieldText(minutes), SecondsText(seconds, millis)))
  }

  lemma PrintedValue(ms: nat, days: nat, hours: nat, minutes: nat, seconds: nat, millis: nat)
    requires millis < 1000 && ms == days * DAY + hours * HOUR + minutes * MINUTE + seconds * 1000 + millis
    ensures IsoMillis(PrintedGroups(days, hours, minutes, seconds, millis)) == ms
  {
    FieldValue(days);
    FieldValue(hours);
    FieldValue(minutes);
    SecondsValue(seconds, millis);
    assert "0"[..0] == "";
    assert Number("0") == 0 && SecondsMillis("0") == 0;
  }

  predicate HasTime(hours: nat, minutes: nat, seconds: nat, millis: nat) {
    hours > 0 || minutes > 0 || seconds > 0 || millis > 0
  }

  lemma PrintForms(days: nat, hours: nat, minutes: nat, seconds: nat, millis: nat)
    ensures PrintParts(days, hours, minutes, seconds, millis) ==
      if HasTime(hours, minutes, seconds, millis)
      then ['P'] + (PrintField(days, 'D') + (['T'] + PrintClock(hours, minutes, seconds, millis)))
      else if days > 0 then ['P'] + (PrintField(days, 'D') + "")
      else "PT0S"
  {}

  lemma ParseTimed(days: nat, clock: string, parsed: Clock)
    requires |clock| >= 2 && ParseClock(clock) == Some(parsed)
    ensures Groups(['P'] + (PrintField(days, 'D') + (['T'] + clock))) == Some(Iso(FieldText(days), parsed))
  {
    ParseWithTime(days, clock);
  }

  lemma ParseParts(days: nat, hours: nat, minutes: nat, seconds: nat, millis: nat)
    requires millis < 1000
    ensures Groups(PrintParts(days, hours, minutes, seconds, millis)) ==
            Some(PrintedGroups(days, hours, minutes, seconds, millis))
  {
    PrintForms(days, hours, minutes, seconds, millis);
    if HasTime(hours, minutes, seconds, millis) {
      ClockIsLong(hours, minutes, seconds, millis);
      ClockReads(hours, minutes, seconds, millis);
      ParseTimed(days, PrintClock(hours, minutes, seconds, millis),
                 Clock(FieldText(hours), FieldText(minutes), SecondsText(seconds, millis)));
    } else if days > 0 {
      ParseWithoutTime(days);
    } else {
      ParseZero();
    }
  }

  lemma PartsAddUp(ms: nat)
    ensures ms ==
        ms / DAY * DAY + ms % DAY / HOUR * HOUR + ms % HOUR / MINUTE * MINUTE + ms % MINUTE / 1000 * 1000 + ms % 1000
  {
    Nested(ms, 1000, 60);
    Nested(ms, MINUTE, 60);
    Nested(ms, HOUR, 24);
  }

  lemma Regroup(q: nat, small: nat, factor: nat)
    ensures q * (small * factor) == (q * factor) * small
  {}

  lemma Nested(n: nat, small: nat, factor: nat)
    requires small > 0 && factor > 0
    ensures small * factor > 0 && n % (small * factor) == n % (small * factor) / small * small + n % small
  {
    var big := small * factor;
    assert big > 0;
    var q, r := n / big, n % big;
    assert n == q * big + r;
    Regroup(q, small, factor);
    ModAddMultiple(r, q * factor, small);
    assert r == r / small * small + r % small;
  }

  lemma ModAddMultiple(r: nat, k: nat, m: nat)
    requires m > 0
    ensures (k * m + r) % m == r % m
  {
    var q := r / m;
    assert k * m + r == (k + q) * m + r % m;
    UniqueRemainder(k * m + r, k + q, r % m, m);
  }

  lemma UniqueRemainder(n: nat, q: nat, r: nat, m: nat)
    requires m > 0 && r < m && n == q * m + r
    ensures n % m == r
  {
    var d := n / m - q;
    assert n == n / m * m + n % m;
    assert d * m == r - n % m;
    assert d > 0 ==> d * m >= m;
    assert d < 0 ==> d * m <= 0 - m;
  }

  lemma ParsedValue(text: string, groups: Iso)
    requires Groups(text) == Some(groups)
    ensures ParseIso(text) == Some(IsoMillis(groups))
  {}

  lemma ParsePartsValue(ms: nat, days: nat, hours: nat, minutes: nat, seconds: nat, millis: nat)
    requires millis < 1000 && ms == days * DAY + hours * HOUR + minutes * MINUTE + seconds * 1000 + millis
    ensures ParseIso(PrintParts(days, hours, minutes, seconds, millis)) == Some(ms)
  {
    ParseParts(days, hours, minutes, seconds, millis);
    PrintedValue(ms, days, hours, minutes, seconds, millis);
    ParsedValue(PrintParts(days, hours, minutes, seconds, millis),
        PrintedGroups(days, hours, minutes, seconds, millis));
  }

  /** Main result: parsing the printed duration gives the milliseconds back, for every natural number. */
  lemma ParsePrint(ms: nat)
    ensures ParseIso(Print(ms)) == Some(ms)
  {
    PartsAddUp(ms);
    ParsePartsValue(ms, ms / DAY, ms % DAY / HOUR, ms % HOUR / MINUTE, ms % MINUTE / 1000, ms % 1000);
  }

  /** The printed fields are those of a clock, and make up the duration. */
  lemma PrintedFieldsAreBounded(ms: nat) returns (days: nat, hours: nat, minutes: nat, seconds: nat, millis: nat)
    ensures hours < 24 && minutes < 60 && seconds < 60 && millis < 1000
    ensures ms == (((days * 24 + hours) * 60 + minutes) * 60 + seconds) * 1000 + millis
    ensures Print(ms) == PrintParts(days, hours, minutes, seconds, millis)
  {
    days, hours := ms / DAY, ms % DAY / HOUR;
    minutes, seconds, millis := ms % HOUR / MINUTE, ms % MINUTE / 1000, ms % 1000;
    PartsAddUp(ms);
    DivLess(ms % DAY, HOUR, 24);
    DivLess(ms % HOUR, MINUTE, 60);
    DivLess(ms % MINUTE, 1000, 60);
  }

  // ---------------------------------------------------------------- stored and read back

  function Map(ms: nat): string { Encode(62, ms) }

  /** A text that starts with P is taken for an ISO duration already; a text that is no number prints as zero. */
  function Unmap(stored: string): string {
    if stored == "" || stored[0] == 'P' then stored
    else
      var ms := Decode(62, stored);
      if ms.None? then "PT0S" else Print(ms.value)
  }

  lemma OneMoreDigit(n: nat, high: nat, d: nat, p: nat)
    requires d * p <= high < (d + 1) * p && high * 62 <= n < high * 62 + 62
    ensures d * (62 * p) <= n < (d + 1) * (62 * p)
  {
    assert d * (62 * p) == 62 * (d * p) && (d + 1) * (62 * p) == 62 * ((d + 1) * p);
  }

  /** The first digit bounds the number. */
  lemma {:induction false} LeadingDigit(n: nat)
    ensures var s := Encode(62, n);
      var d := DigitValue(s[0]).value;
      d * Pow(62, |s| - 1) <= n < (d + 1) * Pow(62, |s| - 1)
  {
    if n < 62 {
      DigitRoundTrip(n);
      assert Pow(62, 0) == 1;
    } else {
      DivShrinks(n, 62);
      LeadingDigit(n / 62);
      var s := Encode(62, n / 62);
      assert Encode(62, n)[0] == s[0] && |Encode(62, n)| == |s| + 1;
      OneMoreDigit(n, n / 62, DigitValue(s[0]).value, Pow(62, |s| - 1));
    }
  }

  lemma LastDigitParity(n: nat)
    ensures var s := Encode(62, n); n % 2 == DigitValue(s[|s| - 1]).value % 2
  {
    DigitRoundTrip(n % 62);
    if n < 62 { DigitRoundTrip(n); } else { DivShrinks(n, 62); }
  }

  /** Numbers that start with P (51) and have at least five digits are long in days. */
  lemma {:induction false} ManyDays(k: nat)
    requires k >= 5
    ensures 51 * Pow(62, k - 1) >= DAY * Pow(10, k - 5)
  {
    if k == 5 {
      assert Pow(62, 2) == 3844;
      assert Pow(62, 4) == 3844 * Pow(62, 2);
    } else {
      ManyDays(k - 1);
      assert Pow(62, k - 1) == 62 * Pow(62, k - 2) && Pow(10, k - 5) == 10 * Pow(10, k - 6);
    }
  }

  lemma DaysAreLong(ms: nat, k: nat)
    requires k >= 5 && ms >= 51 * Pow(62, k - 1)
    ensures ms / DAY > 0 && |Decimal(ms / DAY)| >= k - 4
  {
    ManyDays(k);
    PowPositive(10, k - 5);
    assert ms / DAY >= Pow(10, k - 5) by { QuotientAtLeast(ms, Pow(10, k - 5)); }
    if k > 5 { EncodeLength(10, ms / DAY, k - 5); }
  }

  lemma QuotientAtLeast(ms: nat, q: nat)
    requires ms >= DAY * q
    ensures ms / DAY >= q
  {}

  lemma TimedLength(days: nat, hours: nat, minutes: nat, seconds: nat, millis: nat)
    requires HasTime(hours, minutes, seconds, millis)
    ensures |PrintParts(days, hours, minutes, seconds, millis)| >= |PrintField(days, 'D')| + 4
    ensures hours > 0 && minutes > 0 ==> |PrintParts(days, hours, minutes, seconds, millis)| >= 6
  {
    PrintForms(days, hours, minutes, seconds, millis);
    ClockIsLong(hours, minutes, seconds, millis);
  }

  lemma SmallPowers()
    ensures Pow(62, 0) == 1 && Pow(62, 1) == 62 && Pow(62, 2) == 3844 && Pow(62, 3) == 238328
  {}

  lemma TimedLengthOf(ms: nat)
    requires ms % DAY != 0
    ensures |Print(ms)| >= |PrintField(ms / DAY, 'D')| + 4
    ensures ms % DAY / HOUR > 0 && ms % HOUR / MINUTE > 0 ==> |Print(ms)| >= 6
  {
    TimeOfDay(ms);
    TimedLength(ms / DAY, ms % DAY / HOUR, ms % HOUR / MINUTE, ms % MINUTE / 1000, ms % 1000);
  }

  lemma LongDaysField(ms: nat, k: nat)
    requires k >= 5 && ms >= 51 * Pow(62, k - 1)
    ensures |PrintField(ms / DAY, 'D')| >= k - 3
  {
    DaysAreLong(ms, k);
  }

  lemma FourDigits(ms: nat)
    requires 51 * 238328 <= ms < 52 * 238328
    ensures ms % DAY / HOUR == 3 && ms % HOUR / MINUTE >= 22
  {}

  /** A printed duration with a time part is longer than its number, when that starts with P. */
  lemma TimedIsLonger(ms: nat)
    requires Encode(62, ms)[0] == 'P' && ms % DAY != 0
    ensures |Print(ms)| > |Encode(62, ms)|
  {
    var k := |Encode(62, ms)|;
    LeadingDigit(ms);
    TimedLengthOf(ms);
    if k >= 5 {
      LongDaysField(ms, k);
    } else if k == 4 {
      SmallPowers();
      FourDigits(ms);
    }
  }

  lemma TimeOfDay(ms: nat)
    requires ms % DAY != 0
    ensures ms % DAY / HOUR != 0 || ms % HOUR / MINUTE != 0 || ms % MINUTE / 1000 != 0 || ms % 1000 != 0
  {
    Nested(ms, 1000, 60);
    Nested(ms, MINUTE, 60);
    Nested(ms, HOUR, 24);
  }

  /** Whole days print with a final D, an odd digit; the number of milliseconds is even. */
  lemma WholeDaysDiffer(ms: nat)
    requires ms > 0 && ms % DAY == 0
    ensures Print(ms) != Encode(62, ms)
  {
    var s := Encode(62, ms);
    LastDigitParity(ms);
    WholeDays(ms);
    PrintForms(ms / DAY, 0, 0, 0, 0);
    var text := ['P'] + (PrintField(ms / DAY, 'D') + "");
    assert Print(ms) == text && text[|text| - 1] == 'D';
  }

  lemma MultipleOf(n: nat, k: nat, m: nat)
    requires m > 0 && n == k * m
    ensures n % m == 0
  {
    ModAddMultiple(0, k, m);
  }

  lemma WholeDays(ms: nat)
    requires ms > 0 && ms % DAY == 0
    ensures ms / DAY > 0 && ms % HOUR == 0 && ms % MINUTE == 0 && ms % 1000 == 0 && ms % 2 == 0
  {
    var days := ms / DAY;
    assert ms == days * DAY;
    MultipleOf(ms, days * 24, HOUR);
    MultipleOf(ms, days * 1440, MINUTE);
    MultipleOf(ms, days * 86400, 1000);
    MultipleOf(ms, days * 43200000, 2);
  }

  /** Main result: a stored duration reads back as its ISO text exactly when its number does not start with P. */
  lemma DurationRoundTrip(ms: nat)
    ensures Unmap(Map(ms)) == Print(ms) <==> Map(ms)[0] != 'P'
    ensures Map(ms)[0] != 'P' ==> ParseIso(Unmap(Map(ms))) == Some(ms)
  {
    DecodeEncode(62, ms);
    ParsePrint(ms);
    if Map(ms)[0] == 'P' {
      LeadingDigit(ms);
      PowPositive(62, |Map(ms)| - 1);
      if ms % DAY == 0 { WholeDaysDiffer(ms); } else { TimedIsLonger(ms); }
    }
  }

  /** For instance 51 milliseconds read back as "P", which is no duration. */
  lemma LostDuration()
    ensures Unmap(Map(51)) == "P" && ParseIso("P") == None
  {}
}
