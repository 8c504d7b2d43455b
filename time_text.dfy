/**
 * The "HH:mm" notification time as text: `text.split(':').map(Number)`
 * destructured into `[hours, minutes]`, and the "HH:mm" text the add-task
 * screen stores.
 */
module TimeText {
  import opened Optional

  const Colon: char := ':'

  /** Joins parts with a separator between consecutive parts (the inverse of Split). */
  function Join(parts: seq<string>, sep: char): string
  {
    if |parts| == 0 then ""
    else if |parts| == 1 then parts[0]
    else parts[0] + [sep] + Join(parts[1..], sep)
  }

  /**
   * `s.split(sep)` for a one-character separator: the maximal separator-free
   * pieces of `s`, in order, empty pieces included.
   */
  function Split(s: string, sep: char): (parts: seq<string>)
    ensures |parts| >= 1
    ensures Join(parts, sep) == s
    ensures forall i :: 0 <= i < |parts| ==> sep !in parts[i]
  {
    if s == [] then [""]
    else
      var rest := Split(s[1..], sep);
      if s[0] == sep then
        [""] + rest
      else
        var parts := [[s[0]] + rest[0]] + rest[1..];
        assert parts[1..] == rest[1..];
        assert s == [s[0]] + s[1..];
        parts
  }

  /** The separator occurs in `s` exactly when `s` splits into two or more parts. */
  lemma SplitHasSeveralParts(s: string, sep: char)
    ensures sep in s <==> |Split(s, sep)| >= 2
  {
  }

  /** Splitting at a separator splits the two sides independently. */
  lemma {:induction false} SplitAppend(a: string, b: string, sep: char)
    ensures Split(a + [sep] + b, sep) == Split(a, sep) + Split(b, sep)
  {
    if a == [] {
      assert a + [sep] + b == [sep] + b;
      assert ([sep] + b)[1..] == b;
    } else {
      assert (a + [sep] + b)[0] == a[0];
      assert (a + [sep] + b)[1..] == a[1..] + [sep] + b;
      SplitAppend(a[1..], b, sep);
    }
  }

  /** A separator-free string is a single part. */
  lemma SplitWithoutSeparator(s: string, sep: char)
    requires sep !in s
    ensures Split(s, sep) == [s]
  {
  }

  /** Split undoes Join when no part contains the separator. */
  lemma {:induction false} SplitJoin(parts: seq<string>, sep: char)
    requires |parts| >= 1
    requires forall i :: 0 <= i < |parts| ==> sep !in parts[i]
    ensures Split(Join(parts, sep), sep) == parts
  {
    if |parts| == 1 {
      SplitWithoutSeparator(parts[0], sep);
    } else {
      SplitJoin(parts[1..], sep);
      SplitWithoutSeparator(parts[0], sep);
      SplitAppend(parts[0], Join(parts[1..], sep), sep);
      assert parts == [parts[0]] + parts[1..];
    }
  }

  predicate IsDigit(c: char)
  {
    '0' <= c <= '9'
  }

  predicate AllDigits(s: string)
  {
    forall i :: 0 <= i < |s| ==> IsDigit(s[i])
  }

  /** The decimal value of a string of digits (leading zeros allowed, "" is 0). */
  function DigitsValue(s: string): nat
    requires AllDigits(s)
  {
    if s == [] then 0
    else 10 * DigitsValue(s[..|s| - 1]) + (s[|s| - 1] - '0') as nat
  }

  /**
   * `Number(part)` on the strings the model covers: a string of decimal
   * digits denotes its value and the empty string denotes 0; any other
   * string is NaN, shown as None.
   */
  function ToNumber(part: string): (n: Option<nat>)
    ensures n.Some? <==> AllDigits(part)
    ensures part == "" ==> n == Some(0)
  {
    if AllDigits(part) then Some(DigitsValue(part)) else None
  }

  datatype ClockTime = ClockTime(hours: nat, minutes: nat)

  /**
   * `const [hours, minutes] = text.split(':').map(Number)`, with None when
   * the date built from them is invalid: a non-numeric piece gives NaN, and
   * without a second piece `minutes` is undefined, which `setHours` turns
   * into NaN. Pieces after the second are ignored.
   */
  function ParseClock(text: string): (r: Option<ClockTime>)
    ensures Colon !in text ==> r.None?
  {
    var parts := Split(text, Colon);
    var hours := ToNumber(parts[0]);
    var minutes := if |parts| >= 2 then ToNumber(parts[1]) else None;
    SplitHasSeveralParts(text, Colon);
    if hours.Some? && minutes.Some? then Some(ClockTime(hours.value, minutes.value)) else None
  }

  function DigitChar(d: nat): char
    requires d < 10
  {
    '0' + d as char
  }

  /** A number below 100 as two digits, zero-padded ("2-digit"). */
  function TwoDigits(n: nat): (s: string)
    requires n < 100
    ensures |s| == 2 && AllDigits(s) && Colon !in s
    ensures ToNumber(s) == Some(n)
  {
    var s := [DigitChar(n / 10), DigitChar(n % 10)];
    assert s[..1] == [DigitChar(n / 10)] && s[..1][..0] == [];
    assert DigitsValue(s[..1]) == n / 10;
    assert DigitsValue(s) == 10 * (n / 10) + n % 10;
    s
  }

  /** The "HH:mm" text the add-task screen stores for a notification time. */
  function FormatClock(c: ClockTime): string
    requires c.hours < 100 && c.minutes < 100
  {
    Join([TwoDigits(c.hours), TwoDigits(c.minutes)], Colon)
  }

  /** Parsing the stored "HH:mm" text gives back the hours and minutes. */
  lemma ParseFormat(c: ClockTime)
    requires c.hours < 100 && c.minutes < 100
    ensures ParseClock(FormatClock(c)) == Some(c)
  {
    SplitJoin([TwoDigits(c.hours), TwoDigits(c.minutes)], Colon);
  }

  /**
   * "a:b" with colon-free pieces reads as a clock time exactly when both pieces
   * are digit strings (an empty piece reads as 0), with those values.
   */
  lemma ParsePieces(a: string, b: string)
    requires Colon !in a && Colon !in b
    ensures ParseClock(a + [Colon] + b).Some? <==> AllDigits(a) && AllDigits(b)
    ensures AllDigits(a) && AllDigits(b) ==>
      ParseClock(a + [Colon] + b) == Some(ClockTime(DigitsValue(a), DigitsValue(b)))
  {
    SplitWithoutSeparator(a, Colon);
    SplitWithoutSeparator(b, Colon);
    SplitAppend(a, b, Colon);
  }

  /** "9:" reads as 09:00 and ":" as 00:00, since an empty piece is 0. */
  lemma EmptyPiecesReadAsZero()
    ensures ParseClock("9:") == Some(ClockTime(9, 0))
    ensures ParseClock(":") == Some(ClockTime(0, 0))
  {
    ParsePieces("9", "");
    ParsePieces("", "");
    assert "9" + [Colon] + "" == "9:";
    assert "" + [Colon] + "" == ":";
    assert DigitsValue("9") == 9 by { assert "9"[..0] == []; }
  }

  /** Anything after a second colon (a trailing ":ss", say) does not change the parse. */
  lemma ParseIgnoresRest(a: string, b: string, rest: string)
    requires Colon !in a && Colon !in b
    ensures ParseClock(a + [Colon] + b + [Colon] + rest) == ParseClock(a + [Colon] + b)
  {
    SplitWithoutSeparator(a, Colon);
    SplitWithoutSeparator(b, Colon);
    SplitAppend(a, b, Colon);
    SplitAppend(a + [Colon] + b, rest, Colon);
  }
}
