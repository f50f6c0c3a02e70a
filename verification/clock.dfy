/** The wall-clock prefix of the sent text (modules/nostr_alerter.py:50-51):
    `strftime("%H:%M")`, then one space, then the message. */
module Clock {

  import opened Wrappers

  type Hour = h: int | 0 <= h < 24
  type Minute = m: int | 0 <= m < 60

  /** The local time of day, to the minute. */
  datatype Time = Time(hour: Hour, minute: Minute)

  predicate IsDigit(c: char) {
    '0' <= c <= '9'
  }

  function DigitValue(c: char): int
    requires IsDigit(c)
  {
    c as int - '0' as int
  }

  function DigitChar(d: int): (c: char)
    requires 0 <= d < 10
    ensures IsDigit(c) && DigitValue(c) == d
  {
    ('0' as int + d) as char
  }

  /** A zero-padded two-digit field, as `%H` and `%M` print. */
  function TwoDigits(n: int): (s: string)
    requires 0 <= n < 100
    ensures |s| == 2 && IsDigit(s[0]) && IsDigit(s[1])
    ensures 10 * DigitValue(s[0]) + DigitValue(s[1]) == n
  {
    [DigitChar(n / 10), DigitChar(n % 10)]
  }

  /** Reads back an `HH:MM` stamp; `None` for anything else. */
  function ParseStamp(s: string): Option<Time> {
    if |s| == 5 && IsDigit(s[0]) && IsDigit(s[1]) && s[2] == ':' && IsDigit(s[3]) && IsDigit(s[4]) then
      var h := 10 * DigitValue(s[0]) + DigitValue(s[1]);
      var m := 10 * DigitValue(s[3]) + DigitValue(s[4]);
      if h < 24 && m < 60 then Some(Time(h, m)) else None
    else
      None
  }

  /** `strftime("%H:%M")`: five characters that read back as `t`. */
  function Stamp(t: Time): (s: string)
    ensures |s| == 5 && s[2] == ':'
    ensures ParseStamp(s) == Some(t)
  {
    TwoDigits(t.hour) + ":" + TwoDigits(t.minute)
  }

  /** The stamp is the only text that reads back as its time. */
  lemma ParseOnlyStamps(s: string, t: Time)
    requires ParseStamp(s) == Some(t)
    ensures Stamp(t) == s
  {
  }

  /** The text handed to encryption: the stamp, one space, then the message
      unchanged. */
  function Prefixed(t: Time, message: string): (s: string)
    ensures |s| == |message| + 6
    ensures ParseStamp(s[..5]) == Some(t) && s[5] == ' '
    ensures s[6..] == message
  {
    var s := Stamp(t) + " " + message;
    assert s[..5] == Stamp(t);
    s
  }
}
