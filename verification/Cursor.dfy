/** Page cursors: the instant in RFC 3339 form, JSON strings, and the opaque cursor made of them. */
module Cursor {
  import opened Domain
  import opened Decimal
  import Base64Url

  // ---------- instants ----------

  /** An instant by its UTC calendar fields. */
  datatype Civil = Civil(year: int, month: nat, day: nat, hour: nat, minute: nat, second: nat, nano: nat)

  /** The zero time. */
  const ZERO: Civil := Civil(1, 1, 1, 0, 0, 0, 0)

  function DaysIn(year: int, month: nat): nat {
    if month == 2 then (if year % 4 == 0 && (year % 100 != 0 || year % 400 == 0) then 29 else 28)
    else if month in {4, 6, 9, 11} then 30
    else 31
  }

  /** The months of the Gregorian calendar. */
  lemma DaysExactly(year: int, month: nat)
    ensures month in {1, 3, 5, 7, 8, 10, 12} ==> DaysIn(year, month) == 31
    ensures month in {4, 6, 9, 11} ==> DaysIn(year, month) == 30
    ensures month == 2 ==>
              DaysIn(year, month) == if year % 4 == 0 && (year % 100 == 0 ==> year % 400 == 0) then 29 else 28
  {
  }

  predicate ValidCivil(t: Civil) {
    && 1 <= t.month <= 12 && 1 <= t.day <= DaysIn(t.year, t.month)
    && t.hour < 24 && t.minute < 60 && t.second < 60 && t.nano < 1_000_000_000
  }

  function YearText(y: int): string {
    if 0 <= y then Digits(y, 4) else "-" + Digits(-y, 4)
  }

  function Trimmed(s: string): string {
    if s != "" && s[|s| - 1] == '0' then Trimmed(s[..|s| - 1]) else s
  }

  /** The fraction of section 5.6 of RFC 3339, without trailing zeros. */
  function FractionText(nano: nat): string {
    if nano == 0 then "" else "." + Trimmed(Digits(nano, 9))
  }

  /** A separator and two digits, and what follows. */
  function TwoAfter(sep: char, n: nat, rest: string): string {
    [sep] + (Digits(n, 2) + rest)
  }

  /** Everything after the date. */
  function TimeText(t: Civil): string {
    TwoAfter('T', t.hour, TwoAfter(':', t.minute, TwoAfter(':', t.second, FractionText(t.nano) + "Z")))
  }

  /** Everything after the year. */
  function DateTimeText(t: Civil): string {
    TwoAfter('-', t.month, TwoAfter('-', t.day, TimeText(t)))
  }

  /** `t.UTC().Format(time.RFC3339Nano)` */
  function Format(t: Civil): string {
    YearText(t.year) + DateTimeText(t)
  }

  /** Fraction digits beyond the ninth are dropped, missing ones are zeros. */
  function NanoOf(digits: string): nat
    requires AllDigits(digits)
    decreases if |digits| <= 9 then 9 - |digits| else |digits|
  {
    if |digits| == 9 then DigitsValue(digits)
    else if |digits| < 9 then NanoOf(digits + "0")
    else DigitsValue(digits[..9])
  }

  /** `Z`, or a fraction and `Z`. */
  function ParseFraction(s: string): Option<nat> {
    if s == "Z" then Some(0)
    else if 3 <= |s| && s[0] == '.' && s[|s| - 1] == 'Z' && AllDigits(s[1..|s| - 1]) then Some(NanoOf(s[1..|s| - 1]))
    else None
  }

  predicate Shaped(s: string) {
    && 20 <= |s|
    && AllDigits(s[0..4]) && s[4] == '-' && AllDigits(s[5..7]) && s[7] == '-' && AllDigits(s[8..10]) && s[10] == 'T'
    && AllDigits(s[11..13]) && s[13] == ':' && AllDigits(s[14..16]) && s[16] == ':' && AllDigits(s[17..19])
  }

  /** `time.Parse(time.RFC3339Nano, s)`, on instants written in UTC. */
  function Parse(s: string): Option<Civil> {
    if !Shaped(s) then None
    else
      var nano := ParseFraction(s[19..]);
      if nano.None? then None
      else
        var t := Civil(DigitsValue(s[0..4]), DigitsValue(s[5..7]), DigitsValue(s[8..10]),
                       DigitsValue(s[11..13]), DigitsValue(s[14..16]), DigitsValue(s[17..19]), nano.value);
        if ValidCivil(t) then Some(t) else None
  }

  lemma ExactDigits(n: nat, width: nat)
    requires n < Power10(width)
    ensures |Digits(n, width)| == width && DigitsValue(Digits(n, width)) == n
  {
    DigitsLength(n, width, width);
    DigitsRoundTrip(n, width);
  }

  lemma TwoDigits(n: nat)
    requires n < 100
    ensures |Digits(n, 2)| == 2 && DigitsValue(Digits(n, 2)) == n
  {
    assert Power10(2) == 100;
    ExactDigits(n, 2);
  }

  lemma {:induction false} TrimmedNano(s: string)
    requires AllDigits(s) && |s| <= 9
    ensures AllDigits(Trimmed(s)) && |Trimmed(s)| <= |s| && NanoOf(Trimmed(s)) == NanoOf(s)
    decreases |s|
  {
    if s != "" && s[|s| - 1] == '0' {
      TrimmedNano(s[..|s| - 1]);
      assert s[..|s| - 1] + "0" == s;
    }
  }

  lemma {:induction false} TrimmedNonEmpty(s: string)
    requires AllDigits(s) && DigitsValue(s) != 0
    ensures Trimmed(s) != ""
    decreases |s|
  {
    if s[|s| - 1] == '0' {
      TrimmedNonEmpty(s[..|s| - 1]);
    }
  }

  lemma FractionRoundTrip(nano: nat)
    requires nano < 1_000_000_000
    ensures ParseFraction(FractionText(nano) + "Z") == Some(nano)
  {
    if nano != 0 {
      assert Power10(9) == 1_000_000_000 by { assert Power10(5) == 100_000; }
      ExactDigits(nano, 9);
      var d := Digits(nano, 9);
      TrimmedNano(d);
      TrimmedNonEmpty(d);
      var s := FractionText(nano) + "Z";
      assert s[1..|s| - 1] == Trimmed(d);
    }
  }

  /** Where a text goes on with a separator and two digits. */
  lemma FieldAt(s: string, i: nat, sep: char, n: nat, rest: string)
    requires n < 100 && i <= |s| && s[i..] == TwoAfter(sep, n, rest)
    ensures i + 3 <= |s| && s[i] == sep && AllDigits(s[i + 1..i + 3]) && DigitsValue(s[i + 1..i + 3]) == n
    ensures s[i + 3..] == rest
  {
    TwoDigits(n);
    var tail := s[i..];
    assert tail[1..3] == Digits(n, 2) && tail[3..] == rest;
    assert s[i + 1..i + 3] == tail[1..3] && s[i + 3..] == tail[3..];
  }

  lemma DatePlaces(t: Civil, s: string)
    requires ValidCivil(t) && 4 <= |s| && s[4..] == DateTimeText(t)
    ensures 10 <= |s| && s[4] == '-' && s[7] == '-' && s[10..] == TimeText(t)
    ensures AllDigits(s[5..7]) && DigitsValue(s[5..7]) == t.month
    ensures AllDigits(s[8..10]) && DigitsValue(s[8..10]) == t.day
  {
    FieldAt(s, 4, '-', t.month, TwoAfter('-', t.day, TimeText(t)));
    FieldAt(s, 7, '-', t.day, TimeText(t));
  }

  lemma TimePlaces(t: Civil, s: string)
    requires ValidCivil(t) && 10 <= |s| && s[10..] == TimeText(t)
    ensures 19 <= |s| && s[10] == 'T' && s[13] == ':' && s[16] == ':' && s[19..] == FractionText(t.nano) + "Z"
    ensures AllDigits(s[11..13]) && DigitsValue(s[11..13]) == t.hour
    ensures AllDigits(s[14..16]) && DigitsValue(s[14..16]) == t.minute
    ensures AllDigits(s[17..19]) && DigitsValue(s[17..19]) == t.second
  {
    var rest := FractionText(t.nano) + "Z";
    var second := TwoAfter(':', t.second, rest);
    FieldAt(s, 10, 'T', t.hour, TwoAfter(':', t.minute, second));
    FieldAt(s, 13, ':', t.minute, second);
    FieldAt(s, 16, ':', t.second, rest);
  }

  /** The parts of an instant after its year, at their places. */
  lemma DateTimePlaces(t: Civil, s: string)
    requires ValidCivil(t) && 4 <= |s| && AllDigits(s[0..4]) && s[4..] == DateTimeText(t)
    ensures Shaped(s) && s[19..] == FractionText(t.nano) + "Z"
    ensures DigitsValue(s[5..7]) == t.month && DigitsValue(s[8..10]) == t.day && DigitsValue(s[11..13]) == t.hour
    ensures DigitsValue(s[14..16]) == t.minute && DigitsValue(s[17..19]) == t.second
  {
    DatePlaces(t, s);
    TimePlaces(t, s);
    assert |s| == 19 + |s[19..]|;
  }

  lemma TenTimes(n: nat, p: nat)
    ensures (10 * n) * p == n * (10 * p)
  {
  }

  /** The zeros that are missing from nine digits. */
  lemma {:induction false} NanoScales(s: string)
    requires AllDigits(s) && |s| <= 9
    ensures NanoOf(s) == DigitsValue(s) * Power10(9 - |s|)
    decreases 9 - |s|
  {
    if |s| < 9 {
      NanoScales(s + ['0']);
      DigitsValueExactly(s, '0');
      assert s + ['0'] == s + "0" && Power10(9 - |s|) == 10 * Power10(8 - |s|);
      TenTimes(DigitsValue(s), Power10(8 - |s|));
    }
  }

  lemma {:induction false} TrimmedEnds(s: string)
    ensures Trimmed(s) == "" || Trimmed(s)[|Trimmed(s)| - 1] != '0'
    decreases |s|
  {
    if s != "" && s[|s| - 1] == '0' {
      TrimmedEnds(s[..|s| - 1]);
    }
  }

  lemma FormatParts(t: Civil)
    requires ValidCivil(t) && 0 <= t.year <= 9999
    ensures var s := Format(t);
            4 <= |s| && AllDigits(s[0..4]) && DigitsValue(s[0..4]) == t.year && s[4..] == DateTimeText(t)
  {
    assert Power10(4) == 10_000;
    ExactDigits(t.year, 4);
    assert Format(t)[0..4] == YearText(t.year);
  }

  /** The date of an instant as section 5.6 of RFC 3339 has it: year, month and day. */
  lemma FormatDate(t: Civil)
    requires ValidCivil(t) && 0 <= t.year <= 9999
    ensures var s := Format(t);
            && 10 <= |s| && AllDigits(s[0..4]) && DigitsValue(s[0..4]) == t.year
            && s[4] == '-' && AllDigits(s[5..7]) && DigitsValue(s[5..7]) == t.month
            && s[7] == '-' && AllDigits(s[8..10]) && DigitsValue(s[8..10]) == t.day
            && s[10..] == TimeText(t)
  {
    FormatParts(t);
    DatePlaces(t, Format(t));
  }

  /** Its time: `T`, hour, minute and second. */
  lemma FormatTime(t: Civil)
    requires ValidCivil(t) && 0 <= t.year <= 9999
    ensures var s := Format(t);
            && 19 <= |s|
            && s[10] == 'T' && AllDigits(s[11..13]) && DigitsValue(s[11..13]) == t.hour
            && s[13] == ':' && AllDigits(s[14..16]) && DigitsValue(s[14..16]) == t.minute
            && s[16] == ':' && AllDigits(s[17..19]) && DigitsValue(s[17..19]) == t.second
            && s[19..] == FractionText(t.nano) + "Z"
  {
    FormatDate(t);
    TimePlaces(t, Format(t));
  }

  lemma EndOf(s: string, rest: string)
    requires 19 <= |s| && s[19..] == rest && 3 <= |rest|
    ensures s[20..|s| - 1] == rest[1..|rest| - 1] && s[19] == rest[0]
    ensures s[|s| - 1] == rest[|rest| - 1] && s[|s| - 2] == rest[|rest| - 2]
  {
    assert rest[1..|rest| - 1] == s[19..][1..|rest| - 1];
  }

  lemma FractionExactly(nano: nat)
    requires 0 < nano < 1_000_000_000
    ensures var rest := FractionText(nano) + "Z";
            && 3 <= |rest| <= 11 && rest[0] == '.' && rest[|rest| - 1] == 'Z' && rest[|rest| - 2] != '0'
            && AllDigits(rest[1..|rest| - 1])
            && DigitsValue(rest[1..|rest| - 1]) * Power10(9 - |rest[1..|rest| - 1]|) == nano
  {
    assert Power10(9) == 1_000_000_000 by { assert Power10(5) == 100_000; }
    ExactDigits(nano, 9);
    var d := Digits(nano, 9);
    TrimmedNano(d);
    TrimmedNonEmpty(d);
    TrimmedEnds(d);
    NanoScales(Trimmed(d));
    var rest := FractionText(nano) + "Z";
    assert rest[1..|rest| - 1] == Trimmed(d);
  }

  /**
   * After the seconds: a fraction of at most nine digits only if it is not zero, and then without a zero at its end,
   * and `Z`.
   */
  predicate EndsIn(s: string, nano: nat) {
    && 20 <= |s| && s[|s| - 1] == 'Z'
    && if nano == 0 then |s| == 20
       else
         && 22 <= |s| <= 30 && s[19] == '.' && s[|s| - 2] != '0' && AllDigits(s[20..|s| - 1])
         && DigitsValue(s[20..|s| - 1]) * Power10(9 - |s[20..|s| - 1]|) == nano
  }

  lemma EndExactly(s: string, nano: nat)
    requires 19 <= |s| && s[19..] == FractionText(nano) + "Z" && nano < 1_000_000_000
    ensures EndsIn(s, nano)
  {
    assert |s| == 19 + |s[19..]|;
    if nano != 0 {
      FractionExactly(nano);
      EndOf(s, FractionText(nano) + "Z");
    } else {
      assert s[19] == s[19..][0];
    }
  }

  lemma FormatRest(t: Civil)
    requires ValidCivil(t) && 0 <= t.year <= 9999
    ensures 19 <= |Format(t)| && Format(t)[19..] == FractionText(t.nano) + "Z"
  {
    FormatTime(t);
  }

  /** And its end. */
  lemma FormatEnd(t: Civil)
    requires ValidCivil(t) && 0 <= t.year <= 9999
    ensures EndsIn(Format(t), t.nano)
  {
    FormatRest(t);
    EndExactly(Format(t), t.nano);
  }

  lemma {:induction false} DigitsTooLong(n: nat, width: nat)
    requires Power10(width) <= n
    ensures width < |Digits(n, width)|
    decreases width
  {
    if 0 < width {
      DigitsTooLong(n / 10, width - 1);
    }
  }

  /** Formatting and parsing give the instant back exactly when its year, in UTC, has four digits. */
  lemma InstantRoundTrip(t: Civil)
    requires ValidCivil(t)
    ensures Parse(Format(t)) == if 0 <= t.year <= 9999 then Some(t) else None
  {
    var s, year := Format(t), YearText(t.year);
    assert Power10(4) == 10_000;
    if 0 <= t.year <= 9999 {
      ExactDigits(t.year, 4);
      assert s[0..4] == year && s[4..] == DateTimeText(t);
      DateTimePlaces(t, s);
      FractionRoundTrip(t.nano);
    } else if t.year < 0 {
      assert s[0..4][0] == '-';
    } else {
      DigitsTooLong(t.year, 4);
      assert s[4] == year[4];
    }
  }

  // ---------- JSON strings ----------

  predicate Ascii(s: string) {
    forall i | 0 <= i < |s| :: (s[i] as int) < 128
  }

  function Hex(v: nat): char
    requires v < 16
  {
    if v < 10 then ('0' as int + v) as char else ('a' as int + v - 10) as char
  }

  function HexValue(c: char): Option<nat> {
    if '0' <= c <= '9' then Some(c as int - '0' as int)
    else if 'a' <= c <= 'f' then Some(c as int - 'a' as int + 10)
    else if 'A' <= c <= 'F' then Some(c as int - 'A' as int + 10)
    else None
  }

  const QUOTE: char := 34 as char
  const BACKSLASH: char := 92 as char
  const BACKSPACE: char := 8 as char
  const FORM_FEED: char := 12 as char

  /** How the encoder writes a character of a string; `<`, `>` and `&` are escaped as control characters are. */
  function Escape(c: char): string
    requires (c as int) < 128
  {
    if c == QUOTE || c == BACKSLASH then [BACKSLASH, c]
    else if c == BACKSPACE then [BACKSLASH, 'b']
    else if c == FORM_FEED then [BACKSLASH, 'f']
    else if c == '\n' then [BACKSLASH, 'n']
    else if c == '\r' then [BACKSLASH, 'r']
    else if c == '\t' then [BACKSLASH, 't']
    else if (c as int) < 32 || c == '<' || c == '>' || c == '&' then
      [BACKSLASH, 'u', '0', '0', Hex(c as int / 16), Hex(c as int % 16)]
    else [c]
  }

  /** Section 7 of RFC 8259, and what the encoder does beyond it. */
  lemma EscapeExactly(c: char)
    requires (c as int) < 128
    ensures Escape('"') == "\\\"" && Escape('\\') == "\\\\"
    ensures Escape('\n') == "\\n" && Escape('\r') == "\\r" && Escape('\t') == "\\t"
    ensures Escape(8 as char) == "\\b" && Escape(12 as char) == "\\f"
    ensures Escape('<') == "\\u003c" && Escape('>') == "\\u003e" && Escape('&') == "\\u0026"
    ensures 32 <= (c as int) && c !in {'"', '\\', '<', '>', '&'} ==> Escape(c) == [c]
    ensures (c as int) < 32 ==> Escape(c)[0] == '\\' && |Escape(c)| in {2, 6}
  {
  }

  function EscapeAll(s: string): string
    requires Ascii(s)
  {
    if s == "" then "" else Escape(s[0]) + EscapeAll(s[1..])
  }

  /** One character of a JSON string, and what follows it. */
  function ReadChar(s: string): Option<(char, string)> {
    if s == "" || (s[0] as int) < 32 then None
    else if s[0] != BACKSLASH then Some((s[0], s[1..]))
    else if |s| < 2 then None
    else
      match s[1]
      case 'b' => Some((BACKSPACE, s[2..]))
      case 'f' => Some((FORM_FEED, s[2..]))
      case 'n' => Some(('\n', s[2..]))
      case 'r' => Some(('\r', s[2..]))
      case 't' => Some(('\t', s[2..]))
      case 'u' =>
        if |s| < 6 || s[2] != '0' || s[3] != '0' then None
        else
          var high, low := HexValue(s[4]), HexValue(s[5]);
          if high.Some? && low.Some? && high.value < 8
          then Some(((high.value * 16 + low.value) as char, s[6..])) else None
      case c => if c == QUOTE || c == BACKSLASH || c == '/' then Some((c, s[2..])) else None
  }

  /** A JSON string from after its opening quote, and what follows its closing one. */
  function ReadString(s: string): Option<(string, string)>
    decreases |s|
  {
    if s != "" && s[0] == QUOTE then Some(("", s[1..]))
    else
      var c := ReadChar(s);
      if c.None? then None
      else
        var rest := ReadString(c.value.1);
        if rest.None? then None else Some(([c.value.0] + rest.value.0, rest.value.1))
  }

  lemma ReadEscaped(c: char, rest: string)
    requires (c as int) < 128
    ensures Escape(c) != "" && Escape(c)[0] != QUOTE
    ensures ReadChar(Escape(c) + rest) == Some((c, rest))
  {
    var s := Escape(c) + rest;
    assert s[|Escape(c)|..] == rest;
    if |Escape(c)| == 6 {
      assert c as int / 16 < 8;
      assert (c as int / 16) * 16 + c as int % 16 == c as int;
    }
  }

  lemma {:induction false} StringRoundTrip(s: string, rest: string)
    requires Ascii(s)
    ensures ReadString(EscapeAll(s) + [QUOTE] + rest) == Some((s, rest))
    decreases |s|
  {
    var text := EscapeAll(s) + [QUOTE] + rest;
    if s == "" {
      assert text[1..] == rest;
    } else {
      var tail := EscapeAll(s[1..]) + [QUOTE] + rest;
      assert text == Escape(s[0]) + tail;
      ReadEscaped(s[0], tail);
      assert text[0] == Escape(s[0])[0];
      StringRoundTrip(s[1..], rest);
      assert [s[0]] + s[1..] == s;
    }
  }

  // ---------- cursors ----------

  const ID_FIELD: string := "{\"id\":\""
  const START_FIELD: string := ",\"start_time\":\""

  /** After the id. */
  function Tail(start: Civil): string {
    START_FIELD + (Format(start) + ([QUOTE] + "}"))
  }

  function Payload(start: Civil, id: string): string
    requires Ascii(id)
  {
    ID_FIELD + (EscapeAll(id) + ([QUOTE] + Tail(start)))
  }

  /** The two fields of a payload. */
  function ParsePayload(s: string): Option<(string, string)> {
    if !(ID_FIELD <= s) then None
    else
      var id := ReadString(s[|ID_FIELD|..]);
      if id.None? || !(START_FIELD <= id.value.1) then None
      else
        var start := ReadString(id.value.1[|START_FIELD|..]);
        if start.None? || start.value.1 != "}" then None else Some((id.value.0, start.value.0))
  }

  function Bytes(s: string): seq<Base64Url.Byte>
    requires Ascii(s)
  {
    seq(|s|, i requires 0 <= i < |s| => s[i] as int)
  }

  /** The text of some bytes; bytes beyond ASCII are not part of this model. */
  function Text(b: seq<Base64Url.Byte>): Option<string> {
    if forall i | 0 <= i < |b| :: b[i] < 128
    then Some(seq(|b|, i requires 0 <= i < |b| => if b[i] < 128 then b[i] as char else ' '))
    else None
  }

  predicate IsSpace(c: char) {
    c == ' ' || 9 <= c as int <= 13
  }

  lemma SpaceExactly(c: char)
    ensures IsSpace(c) <==> c in {' ', '\t', '\n', '\r', 11 as char, 12 as char}
  {
  }

  /** `strings.TrimSpace(s) == ""` */
  predicate Blank(s: string) {
    forall i | 0 <= i < |s| :: IsSpace(s[i])
  }

  lemma {:induction false} EscapeAllAscii(s: string)
    requires Ascii(s)
    ensures Ascii(EscapeAll(s))
    decreases |s|
  {
    if s != "" {
      EscapeAllAscii(s[1..]);
    }
  }

  /** Characters that the JSON encoder leaves alone. */
  predicate Plain(s: string) {
    forall i | 0 <= i < |s| :: 32 <= (s[i] as int) < 128 && Escape(s[i]) == [s[i]]
  }

  lemma {:induction false} TrimmedPlain(s: string)
    requires AllDigits(s)
    ensures AllDigits(Trimmed(s))
    decreases |s|
  {
    if s != "" && s[|s| - 1] == '0' {
      TrimmedPlain(s[..|s| - 1]);
    }
  }

  lemma TwoAfterPlain(sep: char, n: nat, rest: string)
    requires sep in {'-', 'T', ':'} && Plain(rest)
    ensures Plain(TwoAfter(sep, n, rest))
  {
  }

  lemma FractionPlain(nano: nat)
    ensures Plain(FractionText(nano) + "Z")
  {
    TrimmedPlain(Digits(nano, 9));
    assert Plain(FractionText(nano));
  }

  lemma FormatPlain(t: Civil)
    ensures Plain(Format(t))
  {
    var rest := FractionText(t.nano) + "Z";
    var second := TwoAfter(':', t.second, rest);
    FractionPlain(t.nano);
    TwoAfterPlain(':', t.second, rest);
    TwoAfterPlain(':', t.minute, second);
    TwoAfterPlain('T', t.hour, TwoAfter(':', t.minute, second));
    TwoAfterPlain('-', t.day, TimeText(t));
    TwoAfterPlain('-', t.month, TwoAfter('-', t.day, TimeText(t)));
    assert Plain(YearText(t.year));
  }

  lemma PlainIsAscii(s: string)
    requires Plain(s)
    ensures Ascii(s)
  {
  }

  lemma AsciiTogether(s: string, t: string)
    requires Ascii(s) && Ascii(t)
    ensures Ascii(s + t)
  {
  }

  lemma PayloadAscii(start: Civil, id: string)
    requires Ascii(id)
    ensures Ascii(Payload(start, id))
  {
    EscapeAllAscii(id);
    FormatPlain(start);
    PlainIsAscii(Format(start));
    AsciiTogether(Format(start), [QUOTE] + "}");
    AsciiTogether(START_FIELD, Format(start) + ([QUOTE] + "}"));
    AsciiTogether([QUOTE], Tail(start));
    AsciiTogether(EscapeAll(id), [QUOTE] + Tail(start));
    AsciiTogether(ID_FIELD, EscapeAll(id) + ([QUOTE] + Tail(start)));
  }

  function EncodeCursor(start: Civil, id: string): string
    requires ValidCivil(start) && Ascii(id)
  {
    if start == ZERO || id == "" then "" else
      PayloadAscii(start, id);
      Base64Url.Encode(Bytes(Payload(start, id)))
  }

  /** Start and id of a cursor, the zero ones for the empty cursor; `None` is the error. */
  function DecodeCursor(raw: string): Option<(Civil, string)> {
    if raw == "" then Some((ZERO, ""))
    else
      var bytes := Base64Url.Decode(raw);
      var text := if bytes.None? then None else Text(bytes.value);
      var fields := if text.None? then None else ParsePayload(text.value);
      if fields.None? then None
      else
        var start := Parse(fields.value.1);
        if start.None? || Blank(fields.value.0) then None else Some((start.value, fields.value.0))
  }

  lemma {:induction false} PlainUnescaped(s: string)
    requires Plain(s)
    ensures EscapeAll(s) == s
    decreases |s|
  {
    if s != "" {
      PlainUnescaped(s[1..]);
    }
  }

  lemma Prefixed(prefix: string, rest: string)
    ensures prefix <= prefix + rest && (prefix + rest)[|prefix|..] == rest
  {
  }

  lemma Reassociate(a: string, b: string, c: string)
    ensures a + (b + c) == (a + b) + c
  {
  }

  lemma TailRoundTrip(start: Civil)
    ensures START_FIELD <= Tail(start)
    ensures ReadString(Tail(start)[|START_FIELD|..]) == Some((Format(start), "}"))
  {
    FormatPlain(start);
    PlainUnescaped(Format(start));
    Prefixed(START_FIELD, Format(start) + ([QUOTE] + "}"));
    StringRoundTrip(Format(start), "}");
    Reassociate(Format(start), [QUOTE], "}");
  }

  /** The parser's way through a payload. */
  lemma ParsesAs(s: string, rest: string, id: string, tail: string, start: string)
    requires ID_FIELD <= s && s[|ID_FIELD|..] == rest && ReadString(rest) == Some((id, tail))
    requires START_FIELD <= tail && ReadString(tail[|START_FIELD|..]) == Some((start, "}"))
    ensures ParsePayload(s) == Some((id, start))
  {
  }

  lemma PayloadRoundTrip(start: Civil, id: string)
    requires Ascii(id)
    ensures ParsePayload(Payload(start, id)) == Some((id, Format(start)))
  {
    Prefixed(ID_FIELD, EscapeAll(id) + ([QUOTE] + Tail(start)));
    StringRoundTrip(id, Tail(start));
    Reassociate(EscapeAll(id), [QUOTE], Tail(start));
    TailRoundTrip(start);
    ParsesAs(Payload(start, id), EscapeAll(id) + ([QUOTE] + Tail(start)), id, Tail(start), Format(start));
  }

  lemma TextRoundTrip(s: string)
    requires Ascii(s)
    ensures Text(Bytes(s)) == Some(s)
  {
    var t := Text(Bytes(s));
    assert t.Some? && |t.value| == |s|;
    assert forall i | 0 <= i < |s| :: t.value[i] == s[i];
    assert t.value == s;
  }

  /** The payload of a cursor, for an id that needs no escaping. */
  function PlainPayload(start: Civil, id: string): string {
    "{\"id\":\"" + (id + ("\",\"start_time\":\"" + (Format(start) + "\"}")))
  }

  lemma PayloadExactly(start: Civil, id: string)
    requires Plain(id) && Ascii(id)
    ensures Payload(start, id) == PlainPayload(start, id)
  {
    PlainUnescaped(id);
    assert [QUOTE] + START_FIELD == "\",\"start_time\":\"" && [QUOTE] + "}" == "\"}";
    Reassociate([QUOTE], START_FIELD, Format(start) + "\"}");
  }

  /** The cursor is the base64 text of that payload's bytes. */
  lemma CursorExactly(start: Civil, id: string)
    requires ValidCivil(start) && Plain(id) && Ascii(id) && start != ZERO && id != ""
    ensures Ascii(PlainPayload(start, id))
    ensures var bytes := Bytes(PlainPayload(start, id));
            && |bytes| == |PlainPayload(start, id)|
            && (forall i | 0 <= i < |bytes| :: bytes[i] == PlainPayload(start, id)[i] as int)
            && EncodeCursor(start, id) == Base64Url.Encode(bytes)
  {
    PayloadExactly(start, id);
    PayloadAscii(start, id);
  }

  /** What a cursor that is not empty decodes to. */
  lemma CursorDecodes(start: Civil, id: string)
    requires ValidCivil(start) && Ascii(id) && start != ZERO && id != ""
    ensures EncodeCursor(start, id) != ""
    ensures DecodeCursor(EncodeCursor(start, id))
            == if 0 <= start.year <= 9999 && !Blank(id) then Some((start, id)) else None
  {
    PayloadAscii(start, id);
    var payload := Payload(start, id);
    Base64Url.RoundTrip(Bytes(payload));
    TextRoundTrip(payload);
    PayloadRoundTrip(start, id);
    InstantRoundTrip(start);
  }

  /** The instants and ids that survive a cursor. */
  predicate Survives(start: Civil, id: string) {
    start != ZERO && 0 <= start.year <= 9999 && !Blank(id)
  }

  /**
   * Decoding gives start and id back exactly when the start is not the zero time and has, in UTC, a year of
   * four digits, and the id is not blank; or when both are zero, which the empty cursor stands for.
   */
  lemma CursorRoundTrip(start: Civil, id: string)
    requires ValidCivil(start) && Ascii(id)
    ensures DecodeCursor(EncodeCursor(start, id)) == Some((start, id)) <==>
            || (start != Civil(1, 1, 1, 0, 0, 0, 0) && 0 <= start.year <= 9999
                && exists i | 0 <= i < |id| :: id[i] !in {' ', '\t', '\n', '\r', 11 as char, 12 as char})
            || (start == Civil(1, 1, 1, 0, 0, 0, 0) && id == "")
  {
    forall i | 0 <= i < |id| ensures IsSpace(id[i]) <==> id[i] in {' ', '\t', '\n', '\r', 11 as char, 12 as char} {
      SpaceExactly(id[i]);
    }
    if start != ZERO && id != "" {
      CursorDecodes(start, id);
    }
  }
}
