/** `btoa` and `atob` as src/encryption.js uses them: over a string whose
    characters are bytes (`String.fromCharCode(...bytes)` on the way in,
    `charCodeAt` on the way out), so both are modelled directly on bytes.
    The alphabet and padding are those of section 4 of RFC 4648; `atob`
    follows the forgiving decoder of the HTML standard (ASCII whitespace
    is skipped, the final padding is optional). */
module Base64 {
  import opened Wrappers

  newtype byte = x: int | 0 <= x < 256

  /** The digit for a six-bit value. */
  function CharOf(k: int): (c: char)
    requires 0 <= k < 64
  {
    if k < 26 then ('A' as int + k) as char
    else if k < 52 then ('a' as int + (k - 26)) as char
    else if k < 62 then ('0' as int + (k - 52)) as char
    else if k == 62 then '+'
    else '/'
  }

  predicate IsDigit64(c: char) {
    'A' <= c <= 'Z' || 'a' <= c <= 'z' || '0' <= c <= '9' || c == '+' || c == '/'
  }

  predicate AllDigits64(s: string) {
    forall i :: 0 <= i < |s| ==> IsDigit64(s[i])
  }

  /** The six-bit value of a digit. */
  function IndexOf(c: char): (k: int)
    requires IsDigit64(c)
    ensures 0 <= k < 64 && CharOf(k) == c
  {
    if 'A' <= c <= 'Z' then c as int - 'A' as int
    else if 'a' <= c <= 'z' then c as int - 'a' as int + 26
    else if '0' <= c <= '9' then c as int - '0' as int + 52
    else if c == '+' then 62
    else 63
  }

  /** Every six-bit value has a digit, and the digit gives the value back. */
  lemma IndexOfCharOf(k: int)
    requires 0 <= k < 64
    ensures IsDigit64(CharOf(k)) && IndexOf(CharOf(k)) == k
  {
  }

  /** The four six-bit values of three bytes (missing bytes read as 0). */
  function Sextets(x: int, y: int, z: int): (d: seq<int>)
    requires 0 <= x < 256 && 0 <= y < 256 && 0 <= z < 256
    ensures |d| == 4 && forall i :: 0 <= i < 4 ==> 0 <= d[i] < 64
  {
    [x / 4, (x % 4) * 16 + y / 16, (y % 16) * 4 + z / 64, z % 64]
  }

  /** The three bytes read back from the four values. */
  lemma SextetsBits(x: int, y: int, z: int)
    requires 0 <= x < 256 && 0 <= y < 256 && 0 <= z < 256
    ensures var d := Sextets(x, y, z);
      d[0] * 4 + d[1] / 16 == x && (d[1] % 16) * 16 + d[2] / 4 == y && (d[2] % 4) * 64 + d[3] == z
  {
    var d := Sextets(x, y, z);
    assert d[1] / 16 == x % 4 && d[1] % 16 == y / 16;
    assert d[2] / 4 == y % 16 && d[2] % 4 == z / 64;
  }

  /** The digits of one to three bytes: 8 bits become 2 digits, 16 bits 3,
      24 bits 4, the last digit filled out with zero bits. */
  function Group(b: seq<byte>): (s: string)
    requires 1 <= |b| <= 3
    ensures |s| == |b| + 1 && AllDigits64(s)
  {
    var d := Sextets(b[0] as int, if |b| > 1 then b[1] as int else 0, if |b| > 2 then b[2] as int else 0);
    IndexOfCharOf(d[0]); IndexOfCharOf(d[1]); IndexOfCharOf(d[2]); IndexOfCharOf(d[3]);
    if |b| == 1 then [CharOf(d[0]), CharOf(d[1])]
    else if |b| == 2 then [CharOf(d[0]), CharOf(d[1]), CharOf(d[2])]
    else [CharOf(d[0]), CharOf(d[1]), CharOf(d[2]), CharOf(d[3])]
  }

  /** The unpadded digits of a byte string. */
  function Digits(b: seq<byte>): (s: string)
    ensures AllDigits64(s)
    decreases |b|
  {
    if |b| == 0 then ""
    else if |b| < 3 then Group(b)
    else Group(b[..3]) + Digits(b[3..])
  }

  /** How many digits `n` bytes make: four for every three, and two or
      three for one or two left over. */
  function DigitCount(n: nat): nat {
    if n == 0 then 0 else if n < 3 then n + 1 else 4 + DigitCount(n - 3)
  }

  /** How many `=` complete the last group of four. */
  function PadCount(n: nat): (k: nat)
    ensures k <= 2
  {
    if n == 0 then 0 else if n == 1 then 2 else if n == 2 then 1 else PadCount(n - 3)
  }

  lemma {:induction false} DigitsLength(b: seq<byte>)
    ensures |Digits(b)| == DigitCount(|b|)
    decreases |b|
  {
    if |b| >= 3 {
      DigitsLength(b[3..]);
    }
  }

  /** How many groups of four characters `n` bytes make. */
  function GroupCount(n: nat): nat {
    if n == 0 then 0 else if n < 3 then 1 else 1 + GroupCount(n - 3)
  }

  /** Digits and padding together fill the groups exactly. */
  lemma {:induction false} GroupsFilled(n: nat)
    ensures DigitCount(n) + PadCount(n) == 4 * GroupCount(n)
    ensures PadCount(n) < 3
  {
    if n >= 3 {
      GroupsFilled(n - 3);
    }
  }

  /** A group for every three bytes or part of three. */
  lemma {:induction false} GroupCountDiv(n: nat)
    ensures GroupCount(n) == (n + 2) / 3
  {
    if n >= 3 {
      GroupCountDiv(n - 3);
      assert (n + 2) / 3 == (n - 1) / 3 + 1;
    }
  }

  /** Digits and padding fill whole groups of four; the digits alone never
      leave a single one over. */
  lemma GroupsOfFour(n: nat)
    ensures (DigitCount(n) + PadCount(n)) % 4 == 0
    ensures DigitCount(n) % 4 != 1
  {
    GroupsFilled(n);
    var d: int, p: int := DigitCount(n), PadCount(n);
    assert d % 4 == (if p == 0 then 0 else 4 - p);
  }

  function Padding(n: nat): (s: string)
    ensures |s| == PadCount(n)
    ensures forall i :: 0 <= i < |s| ==> s[i] == '='
  {
    seq(PadCount(n), _ => '=')
  }

  /** `btoa`: the digits, then the padding to a whole group of four. */
  function Encode(b: seq<byte>): (s: string)
    ensures |s| == 4 * ((|b| + 2) / 3)
  {
    DigitsLength(b);
    GroupsFilled(|b|);
    GroupCountDiv(|b|);
    Digits(b) + Padding(|b|)
  }

  /** The three bytes of four six-bit values. */
  function Octets(a: int, c: int, d: int, e: int): (o: seq<int>)
    requires 0 <= a < 64 && 0 <= c < 64 && 0 <= d < 64 && 0 <= e < 64
    ensures |o| == 3 && forall i :: 0 <= i < 3 ==> 0 <= o[i] < 256
  {
    [a * 4 + c / 16, (c % 16) * 16 + d / 4, (d % 4) * 64 + e]
  }

  /** The bytes of two to four digits, the leftover bits dropped. */
  function Ungroup(s: string): (b: seq<byte>)
    requires 2 <= |s| <= 4 && AllDigits64(s)
    ensures |b| == |s| - 1
  {
    var a := IndexOf(s[0]);
    var c := IndexOf(s[1]);
    var d := if |s| > 2 then IndexOf(s[2]) else 0;
    var e := if |s| > 3 then IndexOf(s[3]) else 0;
    var o := Octets(a, c, d, e);
    if |s| == 2 then [o[0] as byte]
    else if |s| == 3 then [o[0] as byte, o[1] as byte]
    else [o[0] as byte, o[1] as byte, o[2] as byte]
  }

  /** The bytes of a run of digits whose length is not one more than a
      multiple of four. */
  function UnDigits(s: string): (b: seq<byte>)
    requires AllDigits64(s) && |s| % 4 != 1
    decreases |s|
  {
    if |s| == 0 then []
    else if |s| < 4 then Ungroup(s)
    else Ungroup(s[..4]) + UnDigits(s[4..])
  }

  /** The ASCII whitespace the decoder skips: tab, line feed, form feed,
      carriage return and space. */
  predicate IsAsciiWhitespace(c: char) {
    c == '\t' || c == '\n' || c as int == 12 || c == '\r' || c == ' '
  }

  function StripWhitespace(s: string): (r: string)
    ensures |r| <= |s|
    ensures forall i :: 0 <= i < |r| ==> !IsAsciiWhitespace(r[i])
  {
    if s == [] then []
    else if IsAsciiWhitespace(s[0]) then StripWhitespace(s[1..])
    else [s[0]] + StripWhitespace(s[1..])
  }

  /** When the length is a multiple of four, one or two final `=` are
      removed. */
  function Unpad(t: string): (u: string)
    ensures |u| <= |t| && u == t[..|u|]
  {
    var n := |t|;
    if n % 4 == 0 && n >= 2 && t[n - 1] == '=' && t[n - 2] == '=' then t[..n - 2]
    else if n % 4 == 0 && n >= 1 && t[n - 1] == '=' then t[..n - 1]
    else t
  }

  /** `atob`: fails on a length one more than a multiple of four and on any
      character outside the alphabet, `=` left inside included. */
  function Decode(s: string): (r: Option<seq<byte>>)
    ensures r.Some? <==> (var u := Unpad(StripWhitespace(s)); |u| % 4 != 1 && AllDigits64(u))
  {
    var u := Unpad(StripWhitespace(s));
    if |u| % 4 == 1 || !AllDigits64(u) then None else Some(UnDigits(u))
  }

  /** The bytes read back from their six-bit values; missing bytes give
      zero values. */
  lemma OctetsSextets(x: int, y: int, z: int)
    requires 0 <= x < 256 && 0 <= y < 256 && 0 <= z < 256
    ensures var d := Sextets(x, y, z); Octets(d[0], d[1], d[2], d[3]) == [x, y, z]
    ensures z == 0 ==> Sextets(x, y, z)[3] == 0
    ensures y == 0 && z == 0 ==> Sextets(x, y, z)[2] == 0
  {
    SextetsBits(x, y, z);
  }

  /** A short byte string is the display of its elements. */
  lemma Spelled(b: seq<byte>)
    requires 1 <= |b| <= 3
    ensures |b| == 1 ==> b == [b[0]]
    ensures |b| == 2 ==> b == [b[0], b[1]]
    ensures |b| == 3 ==> b == [b[0], b[1], b[2]]
  {
  }

  /** The digits of a group carry the six-bit values of its bytes. */
  lemma GroupDigits(b: seq<byte>)
    requires 1 <= |b| <= 3
    ensures var d := Sextets(b[0] as int, if |b| > 1 then b[1] as int else 0, if |b| > 2 then b[2] as int else 0);
      forall i :: 0 <= i <= |b| ==> IndexOf(Group(b)[i]) == d[i]
  {
    var d := Sextets(b[0] as int, if |b| > 1 then b[1] as int else 0, if |b| > 2 then b[2] as int else 0);
    IndexOfCharOf(d[0]); IndexOfCharOf(d[1]); IndexOfCharOf(d[2]); IndexOfCharOf(d[3]);
  }

  /** Two to four digits of known values give the bytes of those values. */
  lemma UngroupValues(s: string, d: seq<int>)
    requires 2 <= |s| <= 4 && AllDigits64(s)
    requires |d| == 4 && forall i :: 0 <= i < 4 ==> 0 <= d[i] < 64
    requires forall i :: 0 <= i < |s| ==> IndexOf(s[i]) == d[i]
    requires |s| < 4 ==> d[3] == 0
    requires |s| < 3 ==> d[2] == 0
    ensures var o := Octets(d[0], d[1], d[2], d[3]);
      |s| == 2 ==> Ungroup(s) == [o[0] as byte]
    ensures var o := Octets(d[0], d[1], d[2], d[3]);
      |s| == 3 ==> Ungroup(s) == [o[0] as byte, o[1] as byte]
    ensures var o := Octets(d[0], d[1], d[2], d[3]);
      |s| == 4 ==> Ungroup(s) == [o[0] as byte, o[1] as byte, o[2] as byte]
  {
  }

  /** One group of bits comes back unchanged. */
  lemma UngroupGroup(b: seq<byte>)
    requires 1 <= |b| <= 3
    ensures Ungroup(Group(b)) == b
  {
    var x, y, z := b[0] as int, if |b| > 1 then b[1] as int else 0, if |b| > 2 then b[2] as int else 0;
    var d := Sextets(x, y, z);
    GroupDigits(b);
    OctetsSextets(x, y, z);
    UngroupValues(Group(b), d);
    Spelled(b);
  }

  /** The digits of a byte string decode to it. */
  lemma {:induction false} UnDigitsDigits(b: seq<byte>)
    ensures |Digits(b)| % 4 != 1
    ensures UnDigits(Digits(b)) == b
    decreases |b|
  {
    DigitsLength(b);
    GroupsOfFour(|b|);
    if |b| == 0 {
    } else if |b| < 3 {
      UngroupGroup(b);
    } else {
      var g, rest := Group(b[..3]), Digits(b[3..]);
      UngroupGroup(b[..3]);
      UnDigitsDigits(b[3..]);
      assert (g + rest)[..4] == g && (g + rest)[4..] == rest;
      assert b[..3] + b[3..] == b;
    }
  }

  lemma NoWhitespaceStrip(s: string)
    requires forall i :: 0 <= i < |s| ==> !IsAsciiWhitespace(s[i])
    ensures StripWhitespace(s) == s
  {
    if s != [] {
      NoWhitespaceStrip(s[1..]);
      assert [s[0]] + s[1..] == s;
    }
  }

  /** Removing the padding leaves the digits. */
  lemma UnpadEncode(b: seq<byte>)
    ensures Unpad(Encode(b)) == Digits(b)
  {
    var d, p := Digits(b), Padding(|b|);
    var t := d + p;
    DigitsLength(b);
    GroupsOfFour(|b|);
    assert |t| == DigitCount(|b|) + PadCount(|b|);
    assert t[..|d|] == d;
    if |p| == 2 {
      assert t[|t| - 1] == '=' && t[|t| - 2] == '=';
    } else if |p| == 1 {
      assert |d| > 0;
      assert t[|t| - 1] == '=' && t[|t| - 2] == d[|d| - 1];
    } else {
      assert t == d;
      assert |t| > 0 ==> t[|t| - 1] == d[|d| - 1];
    }
  }

  /** `atob(btoa(b)) == b` for every byte string (section 4 of RFC 4648). */
  lemma DecodeEncode(b: seq<byte>)
    ensures Decode(Encode(b)) == Some(b)
  {
    var s := Encode(b);
    assert forall i :: 0 <= i < |s| ==> IsDigit64(s[i]) || s[i] == '=';
    NoWhitespaceStrip(s);
    UnpadEncode(b);
    UnDigitsDigits(b);
  }

  /** The decoder skips whitespace anywhere, so a line-wrapped encoding
      decodes alike. */
  lemma DecodeSkipsWhitespace(s: string, i: nat, c: char)
    requires i <= |s| && IsAsciiWhitespace(c)
    ensures Decode(s[..i] + [c] + s[i..]) == Decode(s)
  {
    StripInsert(s, i, c);
  }

  lemma {:induction false} StripInsert(s: string, i: nat, c: char)
    requires i <= |s| && IsAsciiWhitespace(c)
    ensures StripWhitespace(s[..i] + [c] + s[i..]) == StripWhitespace(s)
  {
    var t := s[..i] + [c] + s[i..];
    if i == 0 {
      assert t[0] == c && t[1..] == s;
    } else {
      StripInsert(s[1..], i - 1, c);
      assert t[0] == s[0];
      assert t[1..] == s[1..][..i - 1] + [c] + s[1..][i - 1..];
    }
  }
}
