/** The server's small formatting helpers: a duration as hours and
    minutes, a share as a percentage string, and a file extension for a
    language name. */
module Helpers {
  import opened Strings
  import opened Numbers
  import opened Calendar

  /** JavaScript's `%`: the remainder takes the sign of the dividend. */
  function JsRem(a: int, b: int): (r: int)
    requires b > 0
    ensures a >= 0 ==> r == a % b
    ensures a < 0 ==> -b < r <= 0
    ensures (a - r) % b == 0
  {
    if a >= 0 then
      MultipleMod(b, a / b);
      a % b
    else
      var q := -((-a) / b);
      assert a - -((-a) % b) == b * q;
      MultipleMod(b, q);
      -((-a) % b)
  }

  /** A multiple of `b` leaves no remainder. */
  lemma MultipleMod(b: int, q: int)
    requires b > 0
    ensures (b * q) % b == 0
  {
    var x := b * q;
    var t := q - x / b;
    assert b * t == x % b;
  }

  /** `formatTime`'s two numbers: whole minutes `Math.floor(ms / 60000)`,
      split by `Math.floor(m / 60)` and `m % 60`. */
  function HoursMinutes(ms: int): (hm: (int, int))
    ensures ms >= 0 ==> hm.0 >= 0 && 0 <= hm.1 < 60 && hm.0 * 60 + hm.1 == ms / MsPerMinute
  {
    var totalMinutes := ms / MsPerMinute;
    (totalMinutes / 60, JsRem(totalMinutes, 60))
  }

  /** `formatTime`: the duration `ms` as `"<hours>h <minutes>m"`. */
  function FormatTime(ms: int): (s: string)
    ensures ms >= 0 ==>
      exists h: nat, m: nat ::
        h * 60 + m == ms / MsPerMinute && m < 60 && s == NatToString(h) + "h " + NatToString(m) + "m"
  {
    var (hours, minutes) := HoursMinutes(ms);
    IntToString(hours) + "h " + IntToString(minutes) + "m"
  }

  /** For a negative duration both parts carry a minus sign, since `%`
      truncates: one minute before the epoch prints as "-1h -1m". */
  lemma FormatTimeNegative()
    ensures FormatTime(-MsPerMinute) == "-1h -1m"
  {
    assert HoursMinutes(-MsPerMinute) == (-1, -1);
    assert IntToString(-1) == "-1";
  }

  /** The magnitude of `value / total * 100` in tenths, rounded to the
      nearest tenth with halves rounded up, as `toFixed(1)` rounds. */
  function PercentTenths(value: int, total: int): (n: nat)
    requires total != 0
    ensures 2000 * Abs(value) - Abs(total) < 2 * Abs(total) * n <= 2000 * Abs(value) + Abs(total)
  {
    RoundDiv(1000 * Abs(value), Abs(total))
  }

  /** `n` tenths written with one decimal, as `toFixed(1)` writes it. */
  function TenthsString(n: nat): (s: string)
    ensures |s| >= 3 && s[|s| - 2] == '.' && IsDigit(s[|s| - 1])
    ensures AllDigits(s[..|s| - 2]) && 10 * DigitsValue(s[..|s| - 2]) + (s[|s| - 1] as int - '0' as int) == n
  {
    var s := NatToString(n / 10) + "." + [DigitChar(n % 10)];
    assert s[..|s| - 2] == NatToString(n / 10);
    DigitsRoundTrip(n / 10);
    s
  }

  /** `calculatePercentage`: "0%" for a zero total, otherwise the share with
      one decimal and a percent sign. */
  function CalculatePercentage(value: int, total: int): (s: string)
    ensures total == 0 ==> s == "0%"
    ensures |s| > 0 && s[|s| - 1] == '%'
    ensures total != 0 ==>
      s == (if value * total < 0 then "-" else "") + TenthsString(PercentTenths(value, total)) + "%"
  {
    if total == 0 then "0%"
    else
      var sign := if (value < 0) != (total < 0) && value != 0 then "-" else "";
      assert sign == (if value * total < 0 then "-" else "") by {
        if value < 0 && total > 0 { assert value * total < 0; }
        if value > 0 && total < 0 { assert value * total < 0; }
        if value < 0 && total < 0 { assert value * total > 0; }
        if value > 0 && total > 0 { assert value * total > 0; }
      }
      sign + TenthsString(PercentTenths(value, total)) + "%"
  }

  /** A share of a non-negative total never prints above "100.0%". */
  lemma PercentageOfShareBounded(value: int, total: int)
    requires 0 <= value <= total && total > 0
    ensures PercentTenths(value, total) <= 1000
    ensures CalculatePercentage(value, total)[0] != '-'
  {
    RoundDivShareBounds(value, total, 1000);
    assert 1000 * Abs(value) == 1000 * value;
    var s := TenthsString(PercentTenths(value, total));
    assert CalculatePercentage(value, total) == s + "%";
    assert IsDigit(NatToString(PercentTenths(value, total) / 10)[0]);
  }

  const Extensions: set<string> := {"js", "html", "css", "py", "md", "json", "txt"}

  /** `getFileExtension`: the file extension for a language name, matched
      without regard to case, "txt" for any other name. */
  function GetFileExtension(language: string): (ext: string)
    ensures ext in Extensions && ext != ""
    ensures ext == "js" <==> ToLower(language) == "javascript"
    ensures ext == "html" <==> ToLower(language) == "html"
    ensures ext == "css" <==> ToLower(language) == "css"
    ensures ext == "py" <==> ToLower(language) == "python"
    ensures ext == "md" <==> ToLower(language) == "markdown"
    ensures ext == "json" <==> ToLower(language) == "json"
    ensures ext == "txt" <==> ToLower(language) !in {"javascript", "html", "css", "python", "markdown", "json"}
  {
    var key := ToLower(language);
    if key == "javascript" then "js"
    else if key == "html" then "html"
    else if key == "css" then "css"
    else if key == "python" then "py"
    else if key == "markdown" then "md"
    else if key == "json" then "json"
    else "txt"
  }

  /** Case never matters: a name and its lower-case form map alike. */
  lemma FileExtensionIgnoresCase(language: string)
    ensures GetFileExtension(ToLower(language)) == GetFileExtension(language)
  {
    ToLowerIdempotent(language);
  }
}
