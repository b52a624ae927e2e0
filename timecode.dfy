/** `time_to_sec`: reading an `H:M:S.ms` timestamp as a number of seconds.
    The part after the dot is read by `int()` as a whole number of
    milliseconds, so `.5` is five milliseconds, not half a second. */
module Timecode {
  import opened Wrappers
  import opened Text

  /** `time_to_sec(time)`; every way it can fail raises `ValueError`: the
      unpacking of a split with the wrong number of pieces, or `int()` of a
      piece that is not an integer. */
  function TimeToSec(time: string): (r: Result<real>)
    ensures r.Err? ==> r.error == ValueError
    ensures Count(time, ':') != 2 ==> r == Err(ValueError)
    ensures r.Ok? ==> Count(Split(time, ':')[2], '.') == 1
  {
    var parts := Split(time, ':');
    if |parts| != 3 then Err(ValueError)
    else
      var other := Split(parts[2], '.');
      if |other| != 2 then Err(ValueError)
      else
        match (ParseInt(parts[0]), ParseInt(parts[1]), ParseInt(other[0]), ParseInt(other[1]))
        case (Some(hour), Some(min), Some(sec), Some(msec)) => Ok(Seconds(hour, min, sec, msec))
        case _ => Err(ValueError)
  }

  /** Hours, minutes and seconds, plus the fraction read as milliseconds. */
  function Seconds(hour: int, min: int, sec: int, msec: int): real
  {
    (hour * 60 * 60 + min * 60 + sec) as real + msec as real / 1000.0
  }

  lemma NoSeparator(s: string, c: char)
    requires AllDigits(s) && !IsDigit(c)
    ensures c !in s
  {
  }

  /** Once the pieces are known, the value is the arithmetic of line 314. */
  lemma PiecesRead(t: string, rest: string, h: string, m: string, s: string, f: string,
                   hv: int, mv: int, sv: int, fv: int)
    requires Split(t, ':') == [h, m, rest] && Split(rest, '.') == [s, f]
    requires ParseInt(h) == Some(hv) && ParseInt(m) == Some(mv)
    requires ParseInt(s) == Some(sv) && ParseInt(f) == Some(fv)
    ensures TimeToSec(t) == Ok(Seconds(hv, mv, sv, fv))
  {
  }

  /** Three colon-free pieces joined by colons split back into themselves. */
  lemma SplitThree(a: string, b: string, c: string, sep: char)
    requires sep !in a && sep !in b && sep !in c
    ensures Split(a + [sep] + b + [sep] + c, sep) == [a, b, c]
  {
    SplitNone(c, sep);
    SplitFirst(b, sep, c);
    assert a + [sep] + b + [sep] + c == a + [sep] + (b + [sep] + c);
    SplitFirst(a, sep, b + [sep] + c);
  }

  /** Two dot-free pieces joined by a dot split back into themselves. */
  lemma SplitTwo(a: string, b: string, sep: char)
    requires sep !in a && sep !in b
    ensures Split(a + [sep] + b, sep) == [a, b]
  {
    SplitNone(b, sep);
    SplitFirst(a, sep, b);
  }

  /** Four runs of decimal digits joined as `H:M:S.F` read as
      `H*3600 + M*60 + S + F/1000` seconds, leading zeros and all. */
  lemma DigitsTimestamp(h: string, m: string, s: string, f: string)
    requires h != [] && m != [] && s != [] && f != []
    requires AllDigits(h) && AllDigits(m) && AllDigits(s) && AllDigits(f)
    ensures TimeToSec(h + ":" + m + ":" + s + "." + f)
         == Ok(Seconds(DigitsValue(h), DigitsValue(m), DigitsValue(s), DigitsValue(f)))
  {
    NoSeparator(s, '.');
    NoSeparator(f, '.');
    var rest := s + ['.'] + f;
    assert ':' !in rest by {
      NoSeparator(s, ':');
      NoSeparator(f, ':');
    }
    NoSeparator(h, ':');
    NoSeparator(m, ':');
    SplitThree(h, m, rest, ':');
    SplitTwo(s, f, '.');
    assert h + ":" + m + ":" + s + "." + f == h + [':'] + m + [':'] + rest;
    ParseDigits(h);
    ParseDigits(m);
    ParseDigits(s);
    ParseDigits(f);
    PiecesRead(h + [':'] + m + [':'] + rest, rest, h, m, s, f, DigitsValue(h), DigitsValue(m), DigitsValue(s), DigitsValue(f));
  }

  /** The timestamp `str(h):str(m):str(s).str(ms)` reads back as
      `h*3600 + m*60 + s` seconds plus `ms` milliseconds. */
  lemma TimestampRoundTrip(h: nat, m: nat, s: nat, ms: nat)
    ensures TimeToSec(NatToString(h) + ":" + NatToString(m) + ":" + NatToString(s) + "." + NatToString(ms))
         == Ok(Seconds(h, m, s, ms))
  {
    DigitsTimestamp(NatToString(h), NatToString(m), NatToString(s), NatToString(ms));
    NatToStringValue(h);
    NatToStringValue(m);
    NatToStringValue(s);
    NatToStringValue(ms);
  }

  /** Without a dot in the seconds field the unpacking fails. */
  lemma MissingFraction(h: string, m: string, s: string)
    requires ':' !in h && ':' !in m && ':' !in s && '.' !in s
    ensures TimeToSec(h + ":" + m + ":" + s) == Err(ValueError)
  {
    SplitThree(h, m, s, ':');
    assert h + ":" + m + ":" + s == h + [':'] + m + [':'] + s;
    SplitNone(s, '.');
  }
}
