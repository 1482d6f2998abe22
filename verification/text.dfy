/** Text helpers with the JavaScript semantics the components rely on: decimal
    `toString()` of integers, `padStart(2, "0")`, truncating `%`, `trim()`,
    `startsWith`, `split(sep).pop()`, string truthiness, and a parser for the
    colon-separated clock strings the players and the timer display. */
module Text {
  import opened Wrappers

  /** A JavaScript string is falsy exactly when it is absent or empty. */
  predicate Truthy(o: Option<string>) {
    o.Some? && o.value != ""
  }

  predicate IsDigit(c: char) {
    '0' <= c <= '9'
  }

  predicate AllDigits(s: string) {
    forall i :: 0 <= i < |s| ==> IsDigit(s[i])
  }

  function DigitChar(d: nat): (c: char)
    requires d < 10
    ensures IsDigit(c)
  {
    ('0' as int + d) as char
  }

  function DigitValue(c: char): (d: nat)
    requires IsDigit(c)
    ensures d < 10
  {
    c as int - '0' as int
  }

  /** Decimal rendering of a natural number, without leading zeros. */
  function NatToString(n: nat): (s: string)
    ensures 1 <= |s|
    ensures AllDigits(s)
    ensures |s| == 1 <==> n < 10
  {
    if n < 10 then [DigitChar(n)] else NatToString(n / 10) + [DigitChar(n % 10)]
  }

  /** `Number.prototype.toString()` on an integer: a minus sign, then the digits of the magnitude. */
  function IntToString(i: int): string
  {
    if i < 0 then "-" + NatToString(-i) else NatToString(i)
  }

  /** The number a string of decimal digits denotes. */
  function ParseDigits(s: string): nat
    requires AllDigits(s)
  {
    if |s| == 0 then 0 else ParseDigits(s[..|s| - 1]) * 10 + DigitValue(s[|s| - 1])
  }

  /** Reading back what `NatToString` writes gives the number again. */
  lemma {:induction false} ParseNatToString(n: nat)
    ensures ParseDigits(NatToString(n)) == n
    decreases n
  {
    if n >= 10 {
      var s := NatToString(n);
      assert s[..|s| - 1] == NatToString(n / 10);
      ParseNatToString(n / 10);
    }
  }

  /** `s.padStart(2, "0")`. */
  function PadStart2(s: string): string
  {
    if |s| == 0 then "00" else if |s| == 1 then "0" + s else s
  }

  /** `n.toString().padStart(2, "0")`. */
  function Pad2(n: int): string
  {
    PadStart2(IntToString(n))
  }

  /** A two-digit field: below 100 the padded rendering has exactly two digits and reads back as `n`. */
  lemma Pad2Field(n: int)
    requires 0 <= n < 100
    ensures |Pad2(n)| == 2
    ensures AllDigits(Pad2(n))
    ensures ParseDigits(Pad2(n)) == n
  {
    ParseNatToString(n);
    if n < 10 {
      var p := Pad2(n);
      assert p == ['0', DigitChar(n)];
      assert p[..1] == ['0'];
      assert ParseDigits(p[..1]) == 0;
    }
  }

  /** Padding a non-negative number keeps it readable: digits only, same value. */
  lemma Pad2Reads(n: nat)
    ensures |Pad2(n)| >= 2
    ensures AllDigits(Pad2(n))
    ensures ParseDigits(Pad2(n)) == n
  {
    if n < 100 {
      Pad2Field(n);
    } else {
      ParseNatToString(n);
    }
  }

  /** JavaScript's `%`: the remainder takes the sign of the dividend. */
  function JsRem(a: int, b: int): (r: int)
    requires b > 0
    ensures a >= 0 ==> r == a % b
    ensures -b < r < b
    ensures a < 0 ==> r <= 0
    ensures a < 0 ==> r == -((-a) % b)
  {
    if a >= 0 then a % b else -((-a) % b)
  }

  /** The fields of a string split at every ':' (`s.split(":")`). */
  function Fields(s: string): (fs: seq<string>)
    ensures |fs| >= 1
  {
    if |s| == 0 then [""]
    else if s[0] == ':' then [""] + Fields(s[1..])
    else var rest := Fields(s[1..]); [[s[0]] + rest[0]] + rest[1..]
  }

  lemma {:induction false} FieldsPlain(a: string)
    requires ':' !in a
    ensures Fields(a) == [a]
    decreases |a|
  {
    if |a| > 0 {
      assert a[1..] == a[|a| - (|a| - 1)..];
      assert ':' !in a[1..];
      FieldsPlain(a[1..]);
      assert [a[0]] + a[1..] == a;
    }
  }

  lemma {:induction false} FieldsJoin(a: string, b: string)
    requires ':' !in a
    ensures Fields(a + ":" + b) == [a] + Fields(b)
    decreases |a|
  {
    var s := a + ":" + b;
    if |a| == 0 {
      assert s == ":" + b;
      assert s[1..] == b;
    } else {
      assert s[0] == a[0];
      assert s[1..] == a[1..] + ":" + b;
      assert ':' !in a[1..];
      FieldsJoin(a[1..], b);
      assert [a[0]] + a[1..] == a;
    }
  }

  /** The value of one clock field: a non-empty digit run, read in decimal. */
  function FieldValue(f: string): (r: Option<nat>)
    ensures r.Some? <==> |f| >= 1 && AllDigits(f)
  {
    if |f| >= 1 && AllDigits(f) then Some(ParseDigits(f)) else None
  }

  /** Base-60 value of a list of fields, most significant first; `None` when a field is not a digit run. */
  function ReadFields(fs: seq<string>): Option<nat>
  {
    if |fs| == 0 then Some(0)
    else
      match (ReadFields(fs[..|fs| - 1]), FieldValue(fs[|fs| - 1]))
      case (Some(v), Some(d)) => Some(v * 60 + d)
      case _ => None
  }

  /** Reads a clock display ("M:SS", "MM:SS", "H:MM:SS") back into seconds; `None` when a field is not a digit run. */
  function ParseClock(s: string): Option<nat>
  {
    ReadFields(Fields(s))
  }

  /** Digit runs hold no ':' separator. */
  lemma DigitsHaveNoColon(s: string)
    requires FieldValue(s).Some?
    ensures ':' !in s
  {
    forall i | 0 <= i < |s| ensures s[i] != ':' {
      assert IsDigit(s[i]);
    }
  }

  /** The decimal rendering of `n` is a field worth `n`. */
  lemma NatField(n: nat)
    ensures FieldValue(NatToString(n)) == Some(n)
  {
    ParseNatToString(n);
  }

  /** Below 100 the two-digit rendering of `n` is a field worth `n`. */
  lemma TwoDigitField(n: nat)
    requires n < 100
    ensures FieldValue(Pad2(n)) == Some(n)
  {
    Pad2Field(n);
  }

  lemma ReadTwo(a: string, b: string, x: nat, y: nat)
    requires FieldValue(a) == Some(x) && FieldValue(b) == Some(y)
    ensures ReadFields([a, b]) == Some(x * 60 + y)
  {
    assert [a, b][..1] == [a];
    assert [a][..0] == [];
    assert ReadFields([a]) == Some(x);
  }

  lemma ReadThree(a: string, b: string, c: string, x: nat, y: nat, z: nat)
    requires FieldValue(a) == Some(x) && FieldValue(b) == Some(y) && FieldValue(c) == Some(z)
    ensures ReadFields([a, b, c]) == Some(x * 3600 + y * 60 + z)
  {
    assert [a, b, c][..2] == [a, b];
    ReadTwo(a, b, x, y);
  }

  lemma Fields2(a: string, b: string)
    requires ':' !in a && ':' !in b
    ensures Fields(a + ":" + b) == [a, b]
  {
    FieldsJoin(a, b);
    FieldsPlain(b);
  }

  lemma Fields3(a: string, b: string, c: string)
    requires ':' !in a && ':' !in b && ':' !in c
    ensures Fields(a + ":" + b + ":" + c) == [a, b, c]
  {
    var rest := b + ":" + c;
    var s := a + ":" + b + ":" + c;
    assert s == a + ":" + rest;
    FieldsJoin(a, rest);
    assert Fields(s) == [a] + Fields(rest);
    Fields2(b, c);
    assert [a] + [b, c] == [a, b, c];
  }

  /** Two fields joined by ':' read back in base 60. */
  lemma ParseJoined2(a: string, b: string, x: nat, y: nat)
    requires FieldValue(a) == Some(x) && FieldValue(b) == Some(y)
    ensures ParseClock(a + ":" + b) == Some(x * 60 + y)
  {
    DigitsHaveNoColon(a);
    DigitsHaveNoColon(b);
    Fields2(a, b);
    ReadTwo(a, b, x, y);
  }

  /** Three fields joined by ':' read back in base 60. */
  lemma ParseJoined3(a: string, b: string, c: string, x: nat, y: nat, z: nat)
    requires FieldValue(a) == Some(x) && FieldValue(b) == Some(y) && FieldValue(c) == Some(z)
    ensures ParseClock(a + ":" + b + ":" + c) == Some(x * 3600 + y * 60 + z)
  {
    DigitsHaveNoColon(a);
    DigitsHaveNoColon(b);
    DigitsHaveNoColon(c);
    Fields3(a, b, c);
    ReadThree(a, b, c, x, y, z);
  }

  /** The clock string "m:ss" reads back as `m * 60 + sec`. */
  lemma ParseTwoFields(m: nat, sec: nat)
    requires sec < 60
    ensures ParseClock(NatToString(m) + ":" + Pad2(sec)) == Some(m * 60 + sec)
  {
    NatField(m);
    TwoDigitField(sec);
    ParseJoined2(NatToString(m), Pad2(sec), m, sec);
  }

  /** The clock string "h:mm:ss" reads back as `h * 3600 + m * 60 + sec`. */
  lemma ParseThreeFields(h: nat, m: nat, sec: nat)
    requires m < 60 && sec < 60
    ensures ParseClock(NatToString(h) + ":" + Pad2(m) + ":" + Pad2(sec)) == Some(h * 3600 + m * 60 + sec)
  {
    NatField(h);
    TwoDigitField(m);
    TwoDigitField(sec);
    ParseJoined3(NatToString(h), Pad2(m), Pad2(sec), h, m, sec);
  }

  /** Whitespace removed by `String.prototype.trim()`: the white-space and line-terminator code points of
      sections 7.2 and 7.3 of ECMA-262 (tab, VT, FF, space, NBSP, BOM, the `Zs` separators, LF, CR, LS, PS). */
  predicate IsSpace(c: char) {
    var n := c as int;
    n == 0x09 || n == 0x0A || n == 0x0B || n == 0x0C || n == 0x0D || n == 0x20 || n == 0xA0 || n == 0x1680
    || (0x2000 <= n <= 0x200A) || n == 0x2028 || n == 0x2029 || n == 0x202F || n == 0x205F || n == 0x3000
    || n == 0xFEFF
  }

  function TrimStart(s: string): (r: string)
    ensures |r| <= |s| && r == s[|s| - |r|..]
    ensures |r| > 0 ==> !IsSpace(r[0])
    ensures forall i :: 0 <= i < |s| - |r| ==> IsSpace(s[i])
  {
    if |s| > 0 && IsSpace(s[0]) then TrimStart(s[1..]) else s
  }

  function TrimEnd(s: string): (r: string)
    ensures |r| <= |s| && r == s[..|r|]
    ensures |r| > 0 ==> !IsSpace(r[|r| - 1])
    ensures forall i :: |r| <= i < |s| ==> IsSpace(s[i])
  {
    if |s| > 0 && IsSpace(s[|s| - 1]) then TrimEnd(s[..|s| - 1]) else s
  }

  /** `s.trim()`. */
  function Trim(s: string): string
  {
    TrimEnd(TrimStart(s))
  }

  /** `s.trim()` is empty exactly when every character of `s` is whitespace. */
  lemma TrimEmptyIff(s: string)
    ensures Trim(s) == "" <==> forall i :: 0 <= i < |s| ==> IsSpace(s[i])
  {
    var t := TrimStart(s);
    if Trim(s) == "" {
      assert t == "";
    } else {
      var r := Trim(s);
      assert r[0] == t[0];
      assert !IsSpace(s[|s| - |t|]);
    }
  }

  /** `s.startsWith(prefix)`. */
  predicate StartsWith(s: string, prefix: string) {
    |prefix| <= |s| && s[..|prefix|] == prefix
  }

  /** `s.split(sep).pop()`: the text after the last `sep`, or all of `s` when it holds none. */
  function AfterLast(s: string, sep: char): (r: string)
    ensures sep !in r
    ensures |r| <= |s| && r == s[|s| - |r|..]
    ensures |r| < |s| ==> s[|s| - |r| - 1] == sep
    ensures sep !in s ==> r == s
  {
    if |s| == 0 then ""
    else if s[|s| - 1] == sep then ""
    else
      var init := s[..|s| - 1];
      assert sep !in s ==> sep !in init;
      var r := AfterLast(init, sep) + [s[|s| - 1]];
      assert s == init + [s[|s| - 1]];
      r
  }
}
