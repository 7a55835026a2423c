/**
 * `ProfileSerializer.get_time_played_display` of accounts/serializers.py:
 * the profile's time played, shown as whole hours and minutes, "2h 30m".
 * The duration is a whole number of seconds, or null.
 */
module TimeDisplay {
  import opened Wrappers

  /** `divmod(seconds, 3600)` then `divmod(remainder, 60)`, the leftover
      seconds dropped. Python's divmod floors, as Dafny's `/` and `%` do for
      a positive divisor. */
  function HoursMinutes(seconds: int): (hm: (int, int))
    ensures 0 <= hm.1 < 60
    ensures hm.0 * 3600 <= seconds < hm.0 * 3600 + 3600
    ensures hm.0 * 3600 + hm.1 * 60 <= seconds < hm.0 * 3600 + hm.1 * 60 + 60
  {
    var hours := seconds / 3600;
    var remainder := seconds % 3600;
    (hours, remainder / 60)
  }

  /** A null duration counts as none. */
  function Seconds(timePlayed: Option<int>): int {
    if timePlayed.Some? then timePlayed.value else 0
  }

  // ---------------------------------------------------------------------
  // Decimal notation of an integer, as Python's str(int) writes it

  predicate IsDigit(c: char) {
    '0' <= c <= '9'
  }

  predicate AllDigits(s: string) {
    forall i :: 0 <= i < |s| ==> IsDigit(s[i])
  }

  function DigitChar(d: int): (c: char)
    requires 0 <= d < 10
    ensures IsDigit(c)
  {
    ('0' as int + d) as char
  }

  function DigitValue(c: char): (d: int)
    requires IsDigit(c)
    ensures 0 <= d < 10
  {
    c as int - '0' as int
  }

  /** The digits of a natural number, most significant first. */
  function Digits(n: nat): (s: string)
    ensures |s| >= 1 && AllDigits(s)
  {
    if n < 10 then [DigitChar(n)] else Digits(n / 10) + [DigitChar(n % 10)]
  }

  /** `str(n)`: a minus sign for negative numbers, then the digits. */
  function Decimal(n: int): (s: string)
    ensures |s| >= 1
    ensures forall i :: 0 <= i < |s| ==> s[i] == '-' || IsDigit(s[i])
  {
    if n < 0 then "-" + Digits(-n) else Digits(n)
  }

  function ParseDigits(s: string): nat
    requires AllDigits(s)
  {
    if s == [] then 0 else ParseDigits(s[..|s| - 1]) * 10 + DigitValue(s[|s| - 1])
  }

  /** Reads back what Decimal writes. */
  function ParseDecimal(s: string): Option<int> {
    if |s| >= 2 && s[0] == '-' && AllDigits(s[1..]) then Some(-(ParseDigits(s[1..]) as int))
    else if |s| >= 1 && AllDigits(s) then Some(ParseDigits(s))
    else None
  }

  lemma {:induction false} DigitsRoundTrip(n: nat)
    ensures ParseDigits(Digits(n)) == n
  {
    if n >= 10 {
      DigitsRoundTrip(n / 10);
      var s := Digits(n);
      var prefix, digit := Digits(n / 10), DigitChar(n % 10);
      assert s == prefix + [digit];
      assert s[..|s| - 1] == prefix;
      assert ParseDigits(s) == ParseDigits(prefix) * 10 + DigitValue(digit);
    }
  }

  lemma DecimalRoundTrip(n: int)
    ensures ParseDecimal(Decimal(n)) == Some(n)
  {
    if n < 0 {
      DigitsRoundTrip(-n);
      assert Decimal(n)[1..] == Digits(-n);
    } else {
      DigitsRoundTrip(n);
    }
  }

  // ---------------------------------------------------------------------
  // The display and its reading

  /** The text "<hours>h <minutes>m". */
  function Format(hm: (int, int)): string {
    Decimal(hm.0) + "h " + Decimal(hm.1) + "m"
  }

  /** The index of the first `c` in `s`, or |s| when there is none. */
  function IndexOf(s: string, c: char): (i: nat)
    ensures i <= |s|
    ensures i < |s| ==> s[i] == c
    ensures forall j :: 0 <= j < i ==> s[j] != c
  {
    if s == [] then 0 else if s[0] == c then 0 else 1 + IndexOf(s[1..], c)
  }

  /** Reads hours and minutes back from a displayed text. */
  function ParseDisplay(text: string): Option<(int, int)> {
    var i := IndexOf(text, 'h');
    if i + 2 < |text| && text[i + 1] == ' ' && text[|text| - 1] == 'm' then
      var hours := ParseDecimal(text[..i]);
      var minutes := ParseDecimal(text[i + 2..|text| - 1]);
      if hours.Some? && minutes.Some? then Some((hours.value, minutes.value)) else None
    else
      None
  }

  /** Format is read back unambiguously. */
  lemma FormatRoundTrip(hm: (int, int))
    ensures ParseDisplay(Format(hm)) == Some(hm)
  {
    var a, b := Decimal(hm.0), Decimal(hm.1);
    var text := Format(hm);
    assert text == a + "h " + b + "m";
    assert text[|a|] == 'h';
    assert forall j :: 0 <= j < |a| ==> text[j] == a[j];
    assert IndexOf(text, 'h') == |a|;
    assert text[..|a|] == a;
    assert text[|a| + 2..|text| - 1] == b;
    DecimalRoundTrip(hm.0);
    DecimalRoundTrip(hm.1);
  }

  /** `get_time_played_display`: "0h 0m" for a null or zero duration,
      otherwise whole hours and leftover whole minutes. */
  function Display(timePlayed: Option<int>): (text: string)
    ensures text == Format(HoursMinutes(Seconds(timePlayed)))
    ensures ParseDisplay(text) == Some(HoursMinutes(Seconds(timePlayed)))
  {
    FormatRoundTrip(HoursMinutes(Seconds(timePlayed)));
    if timePlayed.None? || timePlayed.value == 0 then
      assert Format((0, 0)) == "0h 0m";
      "0h 0m"
    else
      Format(HoursMinutes(timePlayed.value))
  }

  /** Two and a half hours shows as "2h 30m". */
  lemma DisplayExample()
    ensures Display(Some(2 * 3600 + 30 * 60)) == "2h 30m"
  {
    assert HoursMinutes(9000) == (2, 30);
    assert Decimal(2) == "2";
    assert Digits(3) == "3";
    assert Decimal(30) == "30";
    assert Format((2, 30)) == "2h 30m";
  }

  /** Leftover seconds are dropped, and both a null and a zero time played
      show as "0h 0m". */
  lemma DisplayEdgeExamples()
    ensures Display(Some(2 * 3600 + 30 * 60 + 59)) == "2h 30m"
    ensures Display(None) == "0h 0m"
    ensures Display(Some(0)) == "0h 0m"
  {
    assert HoursMinutes(9059) == (2, 30);
    assert Decimal(2) == "2";
    assert Digits(3) == "3";
    assert Decimal(30) == "30";
    assert Format((2, 30)) == "2h 30m";
  }
}
