/** The time text of handle_minute_tick: a six-character buffer that
    strftime fills with "HH:MM" and a NUL, and the in-place removal of a
    leading '0' in 12-hour mode. */
module TimeText {

  const Nul: char := '\0'

  /** `sizeof(time_text)`: "00:00" and its NUL. */
  const TimeBufferSize: nat := 6

  /** The C string a buffer holds: its characters before the first NUL. */
  function CStr(s: seq<char>): (r: seq<char>)
    ensures |r| <= |s| && Nul !in r
    ensures r == s[..|r|]
    ensures Nul in s ==> |r| < |s| && s[|r|] == Nul
    ensures Nul !in s ==> r == s
  {
    if s == [] || s[0] == Nul then [] else [s[0]] + CStr(s[1..])
  }

  /** The buffer after the conditional memmove: in 12-hour mode with a
      leading '0', `memmove(s, &s[1], |s| - 1)` moves every character but
      the first one place left and the last one stays. */
  function Stripped(s: seq<char>, is24h: bool): (r: seq<char>)
    requires |s| > 0
  {
    if !is24h && s[0] == '0' then s[1..] + [s[|s| - 1]] else s
  }

  /** The strip as handle_minute_tick does it, on the static buffer. */
  method StripLeadingZero(buf: array<char>, is24h: bool)
    requires buf.Length == TimeBufferSize
    modifies buf
    ensures buf[..] == Stripped(old(buf[..]), is24h)
  {
    if !is24h && buf[0] == '0' {
      forall i | 0 <= i < buf.Length - 1 {
        buf[i] := buf[i + 1];
      }
    }
  }

  /** A character after the string's NUL does not change the string. */
  lemma {:induction false} CStrAppend(u: seq<char>, x: char)
    requires Nul in u
    ensures CStr(u + [x]) == CStr(u)
    decreases |u|
  {
    if u[0] != Nul {
      assert (u + [x])[1..] == u[1..] + [x];
      CStrAppend(u[1..], x);
    }
  }

  /** What the time layer then shows: with a NUL-terminated buffer, the
      12-hour strip of a leading '0' removes exactly the first character of
      the text; otherwise the text is unchanged. */
  lemma StrippedText(s: seq<char>, is24h: bool)
    requires |s| > 0 && Nul in s
    ensures !is24h && s[0] == '0' ==> CStr(s) == ['0'] + CStr(Stripped(s, is24h))
    ensures is24h || s[0] != '0' ==> CStr(Stripped(s, is24h)) == CStr(s)
  {
    if !is24h && s[0] == '0' {
      assert Nul in s[1..];
      CStrAppend(s[1..], s[|s| - 1]);
    }
  }

  // ---------------------------------------------------------------------
  // The texts strftime produces, for the lemmas below

  function DigitChar(d: nat): (c: char)
    requires d < 10
    ensures '0' <= c <= '9' && (c == '0' <==> d == 0)
  {
    ('0' as int + d) as char
  }

  function TwoDigits(n: nat): (r: seq<char>)
    requires n < 100
    ensures |r| == 2 && Nul !in r
  {
    [DigitChar(n / 10), DigitChar(n % 10)]
  }

  /** The buffer after `strftime("%I:%M")` (1 <= hour12 <= 12) or
      `strftime("%R")` (hour < 24). */
  function Formatted(hour: nat, minute: nat): (r: seq<char>)
    requires hour < 24 && minute < 60
    ensures |r| == TimeBufferSize && r[TimeBufferSize - 1] == Nul
  {
    TwoDigits(hour) + [':'] + TwoDigits(minute) + [Nul]
  }

  lemma CStrFormatted(hour: nat, minute: nat)
    requires hour < 24 && minute < 60
    ensures CStr(Formatted(hour, minute)) == TwoDigits(hour) + [':'] + TwoDigits(minute)
  {
    var s := Formatted(hour, minute);
    var t := TwoDigits(hour) + [':'] + TwoDigits(minute);
    assert s == t + [Nul];
    assert CStr(s) == s[..|CStr(s)|];
    assert |CStr(s)| == |t| by {
      assert Nul !in t;
      assert s[|t|] == Nul;
    }
  }

  /** In 12-hour mode the time reads without a leading zero: hours 1 to 9 as
      one digit, 10 to 12 as two. */
  lemma TwelveHourText(hour12: nat, minute: nat)
    requires 1 <= hour12 <= 12 && minute < 60
    ensures CStr(Stripped(Formatted(hour12, minute), false)) ==
      (if hour12 < 10 then [DigitChar(hour12)] else TwoDigits(hour12)) + [':'] + TwoDigits(minute)
    ensures CStr(Stripped(Formatted(hour12, minute), false))[0] != '0'
  {
    var s := Formatted(hour12, minute);
    CStrFormatted(hour12, minute);
    StrippedText(s, false);
  }

  /** In 24-hour mode the time keeps its leading zero. */
  lemma TwentyFourHourText(hour: nat, minute: nat)
    requires hour < 24 && minute < 60
    ensures CStr(Stripped(Formatted(hour, minute), true)) == TwoDigits(hour) + [':'] + TwoDigits(minute)
  {
    CStrFormatted(hour, minute);
  }
}
