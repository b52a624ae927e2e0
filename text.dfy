/** The few Python `str` and `int` builtins the core relies on: `str.isspace`,
    `str.strip`, `str.lower`, `str(n)`, `int(s)` and `str.split(sep)`. */
module Text {
  import opened Wrappers

  /** Python's `str.isspace` for one character (the characters `strip()`
      removes when called without arguments). */
  predicate IsSpace(c: char)
  {
    || c == ' ' || c == '\t' || c == '\n' || c == '\r' || c == '\U{B}' || c == '\U{C}'
    || ('\U{1C}' <= c <= '\U{1F}') || c == '\U{85}' || c == '\U{A0}' || c == '\U{1680}'
    || ('\U{2000}' <= c <= '\U{200A}') || c == '\U{2028}' || c == '\U{2029}' || c == '\U{202F}'
    || c == '\U{205F}' || c == '\U{3000}'
  }

  predicate AllSpace(s: string)
  {
    forall i :: 0 <= i < |s| ==> IsSpace(s[i])
  }

  /** Every character of `s[lo..hi]` is whitespace. */
  predicate SpacesBetween(s: string, lo: nat, hi: nat)
    requires lo <= hi <= |s|
  {
    forall k :: lo <= k < hi ==> IsSpace(s[k])
  }

  predicate IsDigit(c: char)
  {
    '0' <= c <= '9'
  }

  predicate AllDigits(s: string)
  {
    forall i :: 0 <= i < |s| ==> IsDigit(s[i])
  }

  /** Where `s.lstrip()` starts: the number of leading whitespace characters. */
  function StripStart(s: string): (i: nat)
    ensures i <= |s| && SpacesBetween(s, 0, i)
    ensures i < |s| ==> !IsSpace(s[i])
  {
    if |s| > 0 && IsSpace(s[0]) then 1 + StripStart(s[1..]) else 0
  }

  /** Where `s.rstrip()` ends: the length without the trailing whitespace. */
  function StripEnd(s: string): (j: nat)
    ensures j <= |s| && SpacesBetween(s, j, |s|)
    ensures j > 0 ==> !IsSpace(s[j - 1])
  {
    if |s| > 0 && IsSpace(s[|s| - 1]) then StripEnd(s[..|s| - 1]) else |s|
  }

  /** `s.strip()`: `s` without its leading and trailing whitespace. */
  function Strip(s: string): (r: string)
    ensures |r| <= |s|
    ensures r != [] ==> !IsSpace(r[0]) && !IsSpace(r[|r| - 1])
    ensures r == [] <==> AllSpace(s)
  {
    var i, j := StripStart(s), StripEnd(s);
    assert i < |s| ==> i < j;
    if i < j then s[i..j] else []
  }

  /** The leading whitespace of `s` is exactly `s[..i]` when `s[i]` is not whitespace. */
  lemma StripStartAt(s: string, i: nat)
    requires i <= |s| && SpacesBetween(s, 0, i)
    requires i < |s| ==> !IsSpace(s[i])
    ensures StripStart(s) == i
  {
  }

  /** The trailing whitespace of `s` is exactly `s[j..]` when `s[j - 1]` is not whitespace. */
  lemma StripEndAt(s: string, j: nat)
    requires j <= |s| && SpacesBetween(s, j, |s|)
    requires j > 0 ==> !IsSpace(s[j - 1])
    ensures StripEnd(s) == j
  {
  }

  /** Whatever whitespace surrounds a string that neither starts nor ends in
      whitespace, `strip()` gives back exactly that string. */
  lemma StripSurrounded(pre: string, x: string, post: string)
    requires AllSpace(pre) && AllSpace(post)
    requires x != [] ==> !IsSpace(x[0]) && !IsSpace(x[|x| - 1])
    ensures Strip(pre + x + post) == x
  {
    var s := pre + x + post;
    if x == [] {
      assert AllSpace(s) by {
        forall k | 0 <= k < |s| ensures IsSpace(s[k]) {
          if k < |pre| { assert s[k] == pre[k]; } else { assert s[k] == post[k - |pre|]; }
        }
      }
    } else {
      assert s[|pre|] == x[0];
      assert s[|pre| + |x| - 1] == x[|x| - 1];
      assert SpacesBetween(s, 0, |pre|) by {
        forall k | 0 <= k < |pre| ensures IsSpace(s[k]) { assert s[k] == pre[k]; }
      }
      assert SpacesBetween(s, |pre| + |x|, |s|) by {
        forall k | |pre| + |x| <= k < |s| ensures IsSpace(s[k]) { assert s[k] == post[k - |pre| - |x|]; }
      }
      StripStartAt(s, |pre|);
      StripEndAt(s, |pre| + |x|);
      assert s[|pre|..|pre| + |x|] == x;
    }
  }

  /** Stripping twice strips nothing more. */
  lemma StripIdempotent(s: string)
    ensures Strip(Strip(s)) == Strip(s)
  {
    StripSurrounded([], Strip(s), []);
    assert [] + Strip(s) + [] == Strip(s);
  }

  /** Python's `str.lower`, restricted to the ASCII letters. */
  function LowerChar(c: char): char
  {
    if 'A' <= c <= 'Z' then (c as int - 'A' as int + 'a' as int) as char else c
  }

  function Lower(s: string): (r: string)
    ensures |r| == |s|
    ensures forall i :: 0 <= i < |s| ==> r[i] == LowerChar(s[i])
  {
    seq(|s|, i requires 0 <= i < |s| => LowerChar(s[i]))
  }

  /** The decimal digits of a natural number, most significant first, as
      Python's `str(n)` writes them (no leading zeros). */
  function NatToString(n: nat): (r: string)
    ensures |r| >= 1 && AllDigits(r)
    ensures n >= 10 ==> r[0] != '0'
    decreases n
  {
    if n < 10 then [DigitChar(n)] else NatToString(n / 10) + [DigitChar(n % 10)]
  }

  function DigitChar(d: nat): (c: char)
    requires d < 10
    ensures IsDigit(c)
  {
    ('0' as int + d) as char
  }

  /** Python's `str(n)` for any integer. */
  function IntToString(n: int): (r: string)
  {
    if n < 0 then "-" + NatToString(-n) else NatToString(n)
  }

  /** The value of a string of decimal digits. */
  function DigitsValue(s: string): nat
    requires AllDigits(s)
  {
    if s == [] then 0 else 10 * DigitsValue(s[..|s| - 1]) + (s[|s| - 1] as int - '0' as int)
  }

  lemma {:induction false} NatToStringValue(n: nat)
    ensures DigitsValue(NatToString(n)) == n
    decreases n
  {
    var r := NatToString(n);
    if n >= 10 {
      NatToStringValue(n / 10);
      assert r[..|r| - 1] == NatToString(n / 10);
    }
  }

  /** `str(n)` is injective: different integers print differently. */
  lemma IntToStringInjective(a: int, b: int)
    requires IntToString(a) == IntToString(b)
    ensures a == b
  {
    SignChar(a);
    SignChar(b);
    if a < 0 {
      NegativeHead(a);
      NegativeHead(b);
      DropHead('-', NatToString(-a), NatToString(-b));
      NatToStringInjective(-a, -b);
    } else {
      NatToStringInjective(a, b);
    }
  }

  lemma NegativeHead(a: int)
    requires a < 0
    ensures IntToString(a) == ['-'] + NatToString(-a)
  {
  }

  lemma NatToStringInjective(a: nat, b: nat)
    requires NatToString(a) == NatToString(b)
    ensures a == b
  {
    NatToStringValue(a);
    NatToStringValue(b);
  }

  lemma DropHead(c: char, x: string, y: string)
    requires [c] + x == [c] + y
    ensures x == y
  {
    assert x == ([c] + x)[1..];
    assert y == ([c] + y)[1..];
  }

  /** `str(n)` starts with a minus sign exactly when `n` is negative. */
  lemma SignChar(n: int)
    ensures (IntToString(n)[0] == '-') == (n < 0)
  {
    if n >= 0 {
      assert IsDigit(NatToString(n)[0]);
    }
  }

  /** A digit run as Python's `int()` accepts it: digits, with single
      underscores allowed between two digits. */
  predicate DigitRun(s: string)
  {
    && |s| > 0 && IsDigit(s[0]) && IsDigit(s[|s| - 1])
    && (forall i :: 0 <= i < |s| ==> IsDigit(s[i]) || s[i] == '_')
    && (forall i :: 0 <= i < |s| - 1 ==> !(s[i] == '_' && s[i + 1] == '_'))
  }

  function RemoveUnderscores(s: string): (r: string)
    ensures (forall i :: 0 <= i < |s| ==> IsDigit(s[i]) || s[i] == '_') ==> AllDigits(r)
  {
    if s == [] then [] else (if s[0] == '_' then [] else [s[0]]) + RemoveUnderscores(s[1..])
  }

  /** Without underscores there is nothing to remove. */
  lemma {:induction false} NoUnderscores(s: string)
    requires AllDigits(s)
    ensures RemoveUnderscores(s) == s
  {
    if s != [] {
      assert AllDigits(s[1..]) by {
        forall i | 0 <= i < |s| - 1 ensures IsDigit(s[1..][i]) {
          assert s[1..][i] == s[i + 1];
        }
      }
      NoUnderscores(s[1..]);
      assert s == [s[0]] + s[1..];
    }
  }

  /** Python's `int(s)` in base 10: `None` where it raises `ValueError`.
      Surrounding whitespace and a leading sign are accepted. */
  function ParseInt(s: string): (r: Option<int>)
    ensures r.Some? ==> Strip(s) != []
  {
    var t := Strip(s);
    if |t| > 0 && (t[0] == '+' || t[0] == '-') then
      var body := t[1..];
      if DigitRun(body) then
        var v: int := DigitsValue(RemoveUnderscores(body));
        Some(if t[0] == '-' then -v else v)
      else None
    else if DigitRun(t) then Some(DigitsValue(RemoveUnderscores(t)))
    else None
  }

  /** `int()` reads a plain run of decimal digits as its value. */
  lemma ParseDigits(s: string)
    requires s != [] && AllDigits(s)
    ensures ParseInt(s) == Some(DigitsValue(s))
  {
    DigitsUnstripped(s);
    NoUnderscores(s);
    ParseUnsigned(s, s);
  }

  /** A run of digits has no surrounding whitespace to strip and is a valid
      digit run. */
  lemma DigitsUnstripped(s: string)
    requires s != [] && AllDigits(s)
    ensures Strip(s) == s && DigitRun(s) && IsDigit(s[0])
  {
    StripSurrounded([], s, []);
    assert [] + s + [] == s;
  }

  /** A string that strips to an unsigned digit run reads as that run's value. */
  lemma ParseUnsigned(s: string, t: string)
    requires Strip(s) == t && DigitRun(t) && IsDigit(t[0])
    ensures ParseInt(s) == Some(DigitsValue(RemoveUnderscores(t)))
  {
  }

  /** `int(str(n)) == n` for every natural number. */
  lemma ParseNatToString(n: nat)
    ensures ParseInt(NatToString(n)) == Some(n)
  {
    ParseDigits(NatToString(n));
    NatToStringValue(n);
  }

  /** Python's `s.split(sep)` for a one-character separator: the pieces
      between separators, as many as there are separators plus one. */
  function Split(s: string, sep: char): (r: seq<string>)
    ensures |r| == Count(s, sep) + 1
    ensures forall i :: 0 <= i < |r| ==> sep !in r[i]
    ensures r[0] <= s && (|r[0]| < |s| ==> s[|r[0]|] == sep)
  {
    if s == [] then [""]
    else
      var rest := Split(s[1..], sep);
      if s[0] == sep then [""] + rest else [[s[0]] + rest[0]] + rest[1..]
  }

  function Count(s: string, c: char): nat
  {
    if s == [] then 0 else (if s[0] == c then 1 else 0) + Count(s[1..], c)
  }

  /** A piece free of the separator, followed by the separator, splits off
      as the first piece. */
  lemma {:induction false} SplitFirst(a: string, sep: char, b: string)
    requires sep !in a
    ensures Split(a + [sep] + b, sep) == [a] + Split(b, sep)
  {
    if a == [] {
      assert [] + [sep] + b == [sep] + b;
      assert ([sep] + b)[1..] == b;
    } else {
      var x := a + [sep] + b;
      assert x[0] == a[0] != sep && x[1..] == a[1..] + [sep] + b;
      SplitFirst(a[1..], sep, b);
      var rest := Split(x[1..], sep);
      assert rest[0] == a[1..] && rest[1..] == Split(b, sep);
      assert Split(x, sep) == [[a[0]] + rest[0]] + rest[1..];
      assert [a[0]] + a[1..] == a;
    }
  }

  /** A string free of the separator is its only piece. */
  lemma {:induction false} SplitNone(a: string, sep: char)
    requires sep !in a
    ensures Split(a, sep) == [a]
  {
    if a != [] {
      SplitNone(a[1..], sep);
      assert [a[0]] + a[1..] == a;
    }
  }

  /** Python's `<=` on strings: lexicographic by code point. */
  predicate LexLe(a: string, b: string)
    decreases |a|
  {
    a == [] || (b != [] && (a[0] < b[0] || (a[0] == b[0] && LexLe(a[1..], b[1..]))))
  }

  lemma {:induction false} LexLeTotal(a: string, b: string)
    ensures LexLe(a, b) || LexLe(b, a)
    decreases |a|
  {
    if a != [] && b != [] && a[0] == b[0] {
      LexLeTotal(a[1..], b[1..]);
    }
  }

  lemma {:induction false} LexLeTrans(a: string, b: string, c: string)
    requires LexLe(a, b) && LexLe(b, c)
    ensures LexLe(a, c)
    decreases |a|
  {
    if a != [] && a[0] == b[0] && b[0] == c[0] {
      LexLeTrans(a[1..], b[1..], c[1..]);
    }
  }

  lemma {:induction false} LexLeAntisym(a: string, b: string)
    requires LexLe(a, b) && LexLe(b, a)
    ensures a == b
    decreases |a|
  {
    if a != [] {
      LexLeAntisym(a[1..], b[1..]);
      assert a == [a[0]] + a[1..] && b == [b[0]] + b[1..];
    }
  }
}
