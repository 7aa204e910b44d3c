/** The JavaScript string built-ins the client relies on: `trim`, `slice`,
    `padEnd`, `startsWith`, `replace(/c/g, '')`, `toUpperCase`, `parseInt` and
    the string-to-number coercion of `-`.  Strings are sequences of code points. */
module JsString {
  import opened Wrappers

  /** WhiteSpace and LineTerminator code points of ECMAScript (what `trim` strips). */
  predicate IsJsSpace(c: char) {
    c == '\t' || c == '\n' || c == '\U{000B}' || c == '\U{000C}' || c == '\r' || c == ' '
    || c == '\U{00A0}' || c == '\U{1680}' || ('\U{2000}' <= c <= '\U{200A}')
    || c == '\U{2028}' || c == '\U{2029}' || c == '\U{202F}' || c == '\U{205F}'
    || c == '\U{3000}' || c == '\U{FEFF}'
  }

  /** `s.trimStart()` */
  function TrimStart(s: string): (r: string)
    ensures |r| <= |s| && r == s[|s| - |r|..]
    ensures forall i :: 0 <= i < |s| - |r| ==> IsJsSpace(s[i])
    ensures r != [] ==> !IsJsSpace(r[0])
  {
    if s != [] && IsJsSpace(s[0]) then TrimStart(s[1..]) else s
  }

  /** `s.trimEnd()` */
  function TrimEnd(s: string): (r: string)
    ensures |r| <= |s| && r == s[..|r|]
    ensures forall i :: |r| <= i < |s| ==> IsJsSpace(s[i])
    ensures r != [] ==> !IsJsSpace(r[|r| - 1])
  {
    if s != [] && IsJsSpace(s[|s| - 1]) then TrimEnd(s[..|s| - 1]) else s
  }

  /** `s.trim()` */
  function Trim(s: string): string {
    TrimEnd(TrimStart(s))
  }

  predicate IsBlank(s: string) {
    forall i :: 0 <= i < |s| ==> IsJsSpace(s[i])
  }

  /** `!s.trim()` holds exactly of the strings made of white space only. */
  lemma TrimEmptyIffBlank(s: string)
    ensures Trim(s) == "" <==> IsBlank(s)
  {
    var t := TrimStart(s);
    if Trim(s) == "" {
      assert |t| == 0;
    } else {
      var r := Trim(s);
      assert !IsJsSpace(r[0]);
      assert r[0] == t[0] == s[|s| - |t|];
    }
  }

  /** `s.replace(/c/g, '')`: every occurrence of `c` removed, the rest in order. */
  function RemoveAll(s: string, c: char): (r: string)
    ensures c !in r
    ensures |r| <= |s|
    ensures multiset(r) == multiset(s)[c := 0]
    ensures c !in s ==> r == s
  {
    if s == [] then []
    else
      assert s == [s[0]] + s[1..];
      if s[0] == c then RemoveAll(s[1..], c) else [s[0]] + RemoveAll(s[1..], c)
  }

  /** `s.slice(0, n)` */
  function Take(s: string, n: nat): (r: string)
    ensures |r| == if |s| <= n then |s| else n
    ensures r == s[..|r|]
  {
    if |s| <= n then s else s[..n]
  }

  /** `s.slice(-n)` for n > 0: the last n characters, or all of a shorter string. */
  function TakeLast(s: string, n: nat): (r: string)
    ensures |r| == if |s| <= n then |s| else n
    ensures r == s[|s| - |r|..]
  {
    if |s| <= n then s else s[|s| - n..]
  }

  predicate StartsWith(s: string, prefix: string) {
    |prefix| <= |s| && s[..|prefix|] == prefix
  }

  /** `s.padEnd(n, c)` with a one-character filler. */
  function PadEnd(s: string, n: nat, c: char): (r: string)
    ensures |r| == if |s| >= n then |s| else n
    ensures r[..|s|] == s
    ensures forall i :: |s| <= i < |r| ==> r[i] == c
  {
    if |s| >= n then s else s + seq(n - |s|, _ => c)
  }

  /** `s.toUpperCase()` on the ASCII letters; other code points are kept. */
  function ToUpperAscii(s: string): (r: string)
    ensures |r| == |s|
    ensures forall i :: 0 <= i < |s| ==> !('a' <= r[i] <= 'z')
  {
    seq(|s|, i requires 0 <= i < |s| =>
      if 'a' <= s[i] <= 'z' then (s[i] as int - 32) as char else s[i])
  }

  // ---------------------------------------------------------------------
  // Integer parsing

  /** The value of a hexadecimal digit (which includes the decimal ones). */
  function HexValue(c: char): Option<nat> {
    if '0' <= c <= '9' then Some(c as nat - '0' as nat)
    else if 'a' <= c <= 'f' then Some(c as nat - 'a' as nat + 10)
    else if 'A' <= c <= 'F' then Some(c as nat - 'A' as nat + 10)
    else None
  }

  predicate IsDigit(c: char, radix: nat) {
    HexValue(c).Some? && HexValue(c).value < radix
  }

  predicate AllDigits(s: string, radix: nat) {
    forall i :: 0 <= i < |s| ==> IsDigit(s[i], radix)
  }

  /** Length of the longest prefix of `s` made of radix digits. */
  function DigitRun(s: string, radix: nat): (n: nat)
    ensures n <= |s|
    ensures AllDigits(s[..n], radix)
    ensures n < |s| ==> !IsDigit(s[n], radix)
  {
    if s != [] && IsDigit(s[0], radix) then 1 + DigitRun(s[1..], radix) else 0
  }

  /** Positional value of a digit string, most significant digit first. */
  function ValueOf(d: string, radix: nat): nat
    requires AllDigits(d, radix)
  {
    if d == [] then 0
    else ValueOf(d[..|d| - 1], radix) * radix + HexValue(d[|d| - 1]).value
  }

  function DigitChar(k: nat): char
    requires k < 10
  {
    "0123456789"[k]
  }

  /** The decimal rendering of a natural number, as `String(n)` gives it. */
  function Decimal(n: nat): (d: string)
    ensures |d| >= 1 && AllDigits(d, 10)
  {
    if n < 10 then [DigitChar(n)] else Decimal(n / 10) + [DigitChar(n % 10)]
  }

  /** The unsigned part of `parseInt`: an optional `0x`/`0X` prefix selecting
      base 16, then the longest run of digits; `None` when there is no digit. */
  function ParseMagnitude(u: string): Option<nat> {
    var hex := |u| >= 2 && u[0] == '0' && (u[1] == 'x' || u[1] == 'X');
    var radix := if hex then 16 else 10;
    var body := if hex then u[2..] else u;
    var n := DigitRun(body, radix);
    if n == 0 then None else Some(ValueOf(body[..n], radix))
  }

  /** `parseInt(s)` with no radix: leading white space skipped, an optional
      sign, then the magnitude; `None` stands for NaN. */
  function ParseInt(s: string): Option<int> {
    var t := TrimStart(s);
    if t != [] && (t[0] == '-' || t[0] == '+') then
      match ParseMagnitude(t[1..])
      case None => None
      case Some(v) => Some(if t[0] == '-' then -(v as int) else v as int)
    else
      match ParseMagnitude(t)
      case None => None
      case Some(v) => Some(v)
  }

  /** `Number(s)` for the integer forms: surrounding white space ignored, the
      empty string is 0, an optional sign before decimal digits.  Every other
      string is NaN (`None`). */
  function ToNumber(s: string): Option<int> {
    var t := Trim(s);
    if t == [] then Some(0)
    else
      var negative := t[0] == '-';
      var u := if t[0] == '-' || t[0] == '+' then t[1..] else t;
      if u != [] && AllDigits(u, 10) then
        var v: int := ValueOf(u, 10);
        Some(if negative then -v else v)
      else None
  }

  // ---------------------------------------------------------------------
  // Lemmas about the decimal rendering and the parsers

  lemma {:induction false} ValueOfDecimal(n: nat)
    ensures ValueOf(Decimal(n), 10) == n
  {
    if n >= 10 {
      var d := Decimal(n);
      ValueOfDecimal(n / 10);
      assert d[..|d| - 1] == Decimal(n / 10);
    }
  }

  lemma {:induction false} DecimalLeadingZero(n: nat)
    ensures Decimal(n)[0] == '0' ==> n == 0
  {
    if n >= 10 {
      DecimalLeadingZero(n / 10);
      assert Decimal(n)[0] == Decimal(n / 10)[0];
    }
  }

  lemma {:induction false} DigitRunOfDigits(d: string, t: string, radix: nat)
    requires AllDigits(d, radix)
    requires t == [] || !IsDigit(t[0], radix)
    ensures DigitRun(d + t, radix) == |d|
  {
    if d != [] {
      assert (d + t)[1..] == d[1..] + t;
      DigitRunOfDigits(d[1..], t, radix);
    } else {
      assert d + t == t;
    }
  }

  lemma MagnitudeDecimal(n: nat, t: string)
    requires t == [] || !IsDigit(t[0], 10)
    requires n == 0 ==> t == [] || (t[0] != 'x' && t[0] != 'X')
    ensures ParseMagnitude(Decimal(n) + t) == Some(n)
  {
    var d := Decimal(n);
    var s := d + t;
    DecimalLeadingZero(n);
    if |s| >= 2 && s[0] == '0' {
      assert n == 0 && |d| == 1;
      assert s[1] == t[0];
    }
    DigitRunOfDigits(d, t, 10);
    assert s[..|d|] == d;
    ValueOfDecimal(n);
  }

  /** `parseInt(String(n) + t) == n` when `t` does not continue the digits
      (and, for n = 0, does not turn "0" into a "0x" prefix). */
  lemma ParseIntDecimal(n: nat, t: string)
    requires t == [] || !IsDigit(t[0], 10)
    requires n == 0 ==> t == [] || (t[0] != 'x' && t[0] != 'X')
    ensures ParseInt(Decimal(n) + t) == Some(n)
  {
    var s := Decimal(n) + t;
    assert s[0] == Decimal(n)[0];
    ParseIntDigitStart(s);
    MagnitudeDecimal(n, t);
  }

  /** A string that starts with a decimal digit has neither leading white
      space nor a sign: `parseInt` reads its magnitude directly. */
  lemma ParseIntDigitStart(s: string)
    requires s != [] && IsDigit(s[0], 10)
    ensures ParseInt(s) == match ParseMagnitude(s) case None => None case Some(v) => Some(v as int)
  {
    assert !IsJsSpace(s[0]);
    assert TrimStart(s) == s;
  }

  /** A string whose first character is neither white space, a sign nor a
      digit parses to NaN. */
  lemma ParseIntRejects(s: string)
    requires s == [] || (!IsJsSpace(s[0]) && s[0] != '-' && s[0] != '+' && !IsDigit(s[0], 10))
    ensures ParseInt(s) == None
  {
    assert TrimStart(s) == s;
  }

  /** `Number(String(n)) == n` */
  lemma {:induction false} ToNumberDecimal(n: nat)
    ensures ToNumber(Decimal(n)) == Some(n)
  {
    var d := Decimal(n);
    assert IsDigit(d[0], 10) && IsDigit(d[|d| - 1], 10);
    assert !IsJsSpace(d[0]) && !IsJsSpace(d[|d| - 1]);
    assert TrimStart(d) == d;
    assert TrimEnd(d) == d;
    assert Trim(d) == d;
    assert d[0] != '-' && d[0] != '+';
    ValueOfDecimal(n);
  }
}
