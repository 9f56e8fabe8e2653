/**
 * The freshness stamp of main.py line 124:
 * `now.strftime("更新日：%m/%d_%H:%M")` on the current time in UTC+9, e.g.
 * "更新日：12/24_15:30".  The clock reading is an input, already in UTC+9.
 */
module Timestamp {
  import opened Wrappers

  /** The literal label "更新日：" (four characters, ending in a full-width colon). */
  const Label: string := "更新日："

  /** The month, day, hour and minute fields of a UTC+9 `datetime`. */
  datatype JstTime = JstTime(month: int, day: int, hour: int, minute: int)

  predicate ValidTime(t: JstTime) {
    1 <= t.month <= 12 && 1 <= t.day <= 31 && 0 <= t.hour < 24 && 0 <= t.minute < 60
  }

  predicate IsDigit(c: char) {
    '0' <= c <= '9'
  }

  /** `%m`, `%d`, `%H` and `%M`: two decimal digits, zero-padded. */
  function TwoDigits(n: int): (s: string)
    requires 0 <= n < 100
    ensures |s| == 2 && IsDigit(s[0]) && IsDigit(s[1])
  {
    [(('0' as int) + n / 10) as char, (('0' as int) + n % 10) as char]
  }

  /** The value of two decimal digits. */
  function DigitsValue(a: char, b: char): (n: int)
    requires IsDigit(a) && IsDigit(b)
    ensures 0 <= n < 100
  {
    (a as int - '0' as int) * 10 + (b as int - '0' as int)
  }

  /** Line 124: the label, then "MM/DD_HH:MM". */
  function Stamp(t: JstTime): (s: string)
    requires ValidTime(t)
    ensures |s| == |Label| + 11 && s[..|Label|] == Label
    ensures s[|Label| + 2] == '/' && s[|Label| + 5] == '_' && s[|Label| + 8] == ':'
  {
    Label + TwoDigits(t.month) + "/" + TwoDigits(t.day) + "_" + TwoDigits(t.hour) + ":" + TwoDigits(t.minute)
  }

  /** Reads a stamp back into its fields; `None` for any other text. */
  function ParseStamp(s: string): (r: Option<JstTime>)
    ensures r.Some? ==> ValidTime(r.value)
  {
    var n := |Label|;
    if |s| != n + 11 || s[..n] != Label || s[n + 2] != '/' || s[n + 5] != '_' || s[n + 8] != ':' then None
    else if !(IsDigit(s[n]) && IsDigit(s[n + 1]) && IsDigit(s[n + 3]) && IsDigit(s[n + 4])
              && IsDigit(s[n + 6]) && IsDigit(s[n + 7]) && IsDigit(s[n + 9]) && IsDigit(s[n + 10])) then None
    else
      var t := JstTime(DigitsValue(s[n], s[n + 1]), DigitsValue(s[n + 3], s[n + 4]),
                       DigitsValue(s[n + 6], s[n + 7]), DigitsValue(s[n + 9], s[n + 10]));
      if ValidTime(t) then Some(t) else None
  }

  /** The two digits of `%m`, `%d`, `%H` or `%M` read back as the number they were made from. */
  lemma TwoDigitsValue(n: int)
    requires 0 <= n < 100
    ensures DigitsValue(TwoDigits(n)[0], TwoDigits(n)[1]) == n
  {
  }

  /** Round trip: the stamp can be read back into exactly the time it was made from. */
  lemma ParseStampRoundTrip(t: JstTime)
    requires ValidTime(t)
    ensures ParseStamp(Stamp(t)) == Some(t)
  {
    TwoDigitsValue(t.month);
    TwoDigitsValue(t.day);
    TwoDigitsValue(t.hour);
    TwoDigitsValue(t.minute);
  }

  /** Different times give different stamps. */
  lemma StampInjective(t: JstTime, u: JstTime)
    requires ValidTime(t) && ValidTime(u) && Stamp(t) == Stamp(u)
    ensures t == u
  {
    ParseStampRoundTrip(t);
    ParseStampRoundTrip(u);
  }
}
