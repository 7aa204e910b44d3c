/** The channel cipher of src/encryption.js: a key padded or cut to 32
    characters, AES-GCM under a fresh 12-byte IV, the IV and ciphertext
    framed together and base64-encoded; decryption undoes the framing and
    answers a fixed sentinel on any failure. AES-GCM itself, the random IV
    and the UTF-8 decoder are parameters the model does not interpret. */
module Encryption {
  import opened Wrappers
  import opened JsString
  import opened Base64

  const KeyLength: nat := 32
  const IvLength: nat := 12

  /** What `decrypt` answers whenever anything fails. */
  const Sentinel: string := "[Decryption failed]"

  /** `key.padEnd(32, '0').slice(0, 32)`, the same in both directions. */
  function DeriveKey(key: string): (k: string)
    ensures |k| == KeyLength
    ensures |key| >= KeyLength ==> k == key[..KeyLength]
    ensures |key| < KeyLength ==> k[..|key|] == key && forall i :: |key| <= i < KeyLength ==> k[i] == '0'
  {
    Take(PadEnd(key, KeyLength, '0'), KeyLength)
  }

  /** A derived key derives to itself. */
  lemma DeriveKeyIdempotent(key: string)
    ensures DeriveKey(DeriveKey(key)) == DeriveKey(key)
  {
  }

  /** A short key and the same key with a `0` appended are one key. */
  lemma TrailingZeroSameKey(key: string)
    requires |key| < KeyLength
    ensures DeriveKey(key + "0") == DeriveKey(key)
  {
    var a, b := DeriveKey(key + "0"), DeriveKey(key);
    assert forall i :: 0 <= i < KeyLength ==> a[i] == b[i];
  }

  /** `TextEncoder` on one code point. */
  function Utf8(c: char): (r: seq<byte>)
    ensures 1 <= |r| <= 4
    ensures |r| == 1 <==> c as int < 0x80
  {
    var n := c as int;
    if n < 0x80 then [n as byte]
    else if n < 0x800 then [(0xC0 + n / 64) as byte, (0x80 + n % 64) as byte]
    else if n < 0x10000 then [(0xE0 + n / 4096) as byte, (0x80 + (n / 64) % 64) as byte, (0x80 + n % 64) as byte]
    else [(0xF0 + n / 262144) as byte, (0x80 + (n / 4096) % 64) as byte, (0x80 + (n / 64) % 64) as byte, (0x80 + n % 64) as byte]
  }

  /** `new TextEncoder().encode(s)`. */
  function Utf8Encode(s: string): seq<byte> {
    if s == [] then [] else Utf8(s[0]) + Utf8Encode(s[1..])
  }

  predicate IsAscii(s: string) {
    forall i :: 0 <= i < |s| ==> s[i] as int < 0x80
  }

  /** Encoding never shortens a string, and keeps its length exactly when
      every character is ASCII. */
  lemma {:induction false} Utf8Length(s: string)
    ensures |Utf8Encode(s)| >= |s|
    ensures |Utf8Encode(s)| == |s| <==> IsAscii(s)
  {
    if s != [] {
      Utf8Length(s[1..]);
      assert IsAscii(s) <==> s[0] as int < 0x80 && IsAscii(s[1..]) by {
        if s[0] as int < 0x80 && IsAscii(s[1..]) {
          forall i | 0 <= i < |s| ensures s[i] as int < 0x80 {
            if i > 0 { assert s[i] == s[1..][i - 1]; }
          }
        }
      }
    }
  }

  /** The raw key material both directions import. */
  function KeyData(key: string): seq<byte> {
    Utf8Encode(DeriveKey(key))
  }

  /** `importKey('raw', …, 'AES-GCM')` accepts 128-, 192- and 256-bit keys
      only. */
  predicate KeyImports(keyData: seq<byte>) {
    |keyData| == 16 || |keyData| == 24 || |keyData| == 32
  }

  /** The 32 derived characters import exactly when they are all ASCII:
      any other character takes the key past 32 bytes. */
  lemma KeyImportsIffAscii(key: string)
    ensures KeyImports(KeyData(key)) <==> IsAscii(DeriveKey(key))
  {
    Utf8Length(DeriveKey(key));
  }

  /** AES-GCM: `seal(key, iv, data)` is `crypto.subtle.encrypt`, `open(key,
      iv, ciphertext)` is `crypto.subtle.decrypt`, which fails (`None`) on
      a tag that does not check or an unusable IV. */
  datatype Aead = Aead(seal: (seq<byte>, seq<byte>, seq<byte>) -> seq<byte>,
                       open: (seq<byte>, seq<byte>, seq<byte>) -> Option<seq<byte>>)

  /** `encrypt`'s result: the rejection `importKey` throws, or the base64 of
      the IV followed by the ciphertext. */
  function Sealed(message: string, key: string, iv: seq<byte>, aes: Aead): (r: Result<string>)
    ensures r.Ok? <==> IsAscii(DeriveKey(key))
    ensures r.Ok? ==> |r.value| % 4 == 0
  {
    KeyImportsIffAscii(key);
    var keyData := KeyData(key);
    if !KeyImports(keyData) then Err("DataError")
    else Ok(Encode(iv + aes.seal(keyData, iv, Utf8Encode(message))))
  }

  /** `combined.set(iv)` then `combined.set(ciphertext, iv.length)` on a
      fresh buffer of the two lengths together. */
  method Frame(iv: seq<byte>, ct: seq<byte>) returns (combined: array<byte>)
    ensures fresh(combined)
    ensures combined[..] == iv + ct
  {
    combined := new byte[|iv| + |ct|];
    var i := 0;
    while i < |iv|
      invariant 0 <= i <= |iv|
      invariant combined[..i] == iv[..i]
    {
      combined[i] := iv[i];
      i := i + 1;
    }
    var j := 0;
    while j < |ct|
      invariant 0 <= j <= |ct|
      invariant combined[..|iv|] == iv
      invariant combined[|iv|..|iv| + j] == ct[..j]
    {
      combined[|iv| + j] := ct[j];
      j := j + 1;
    }
    assert combined[..] == combined[..|iv|] + combined[|iv|..|iv| + |ct|];
  }

  /** `encrypt`: the key is imported, the message sealed under the IV that
      `getRandomValues` drew, and the framed buffer base64-encoded. */
  method Encrypt(message: string, key: string, iv: seq<byte>, aes: Aead) returns (r: Result<string>)
    ensures r == Sealed(message, key, iv, aes)
  {
    var keyData := KeyData(key);
    if !KeyImports(keyData) {
      return Err("DataError");
    }
    var ct := aes.seal(keyData, iv, Utf8Encode(message));
    var combined := Frame(iv, ct);
    r := Ok(Encode(combined[..]));
  }

  /** `combined.slice(0, 12)` and `combined.slice(12)`: a buffer shorter
      than an IV is all IV and no ciphertext. */
  function Split(combined: seq<byte>): (r: (seq<byte>, seq<byte>))
    ensures r.0 + r.1 == combined
    ensures |r.0| == if |combined| < IvLength then |combined| else IvLength
  {
    var k := if |combined| < IvLength then |combined| else IvLength;
    (combined[..k], combined[k..])
  }

  /** Splitting a framed buffer gives back its IV and its ciphertext. */
  lemma SplitFrame(iv: seq<byte>, ct: seq<byte>)
    requires |iv| == IvLength
    ensures Split(iv + ct) == (iv, ct)
  {
    var r := Split(iv + ct);
    assert r.0 == (iv + ct)[..IvLength] == iv;
  }

  /** `decrypt`: every failure, whether the key does not import, the text is
      not base64 or the ciphertext does not authenticate, is caught and
      answered with the sentinel; `utf8Decode` is `TextDecoder`, which
      does not fail. */
  function Decrypt(encrypted: string, key: string, aes: Aead, utf8Decode: seq<byte> -> string): (r: string)
    ensures !IsAscii(DeriveKey(key)) ==> r == Sentinel
    ensures Decode(encrypted).None? ==> r == Sentinel
    ensures IsAscii(DeriveKey(key)) && Decode(encrypted).Some? ==>
              var parts := Split(Decode(encrypted).value);
              var out := aes.open(KeyData(key), parts.0, parts.1);
              r == if out.Some? then utf8Decode(out.value) else Sentinel
  {
    KeyImportsIffAscii(key);
    var keyData := KeyData(key);
    if !KeyImports(keyData) then Sentinel
    else match Decode(encrypted)
      case None => Sentinel
      case Some(combined) =>
        var parts := Split(combined);
        match aes.open(keyData, parts.0, parts.1)
        case None => Sentinel
        case Some(data) => utf8Decode(data)
  }

  /** What `encrypt` produced under a 12-byte IV, `decrypt` turns back into
      the message under the same key, given that AES-GCM opens what it
      sealed and that the decoder inverts the encoder. */
  lemma DecryptSealed(message: string, key: string, iv: seq<byte>, aes: Aead, utf8Decode: seq<byte> -> string)
    requires |iv| == IvLength
    requires Sealed(message, key, iv, aes).Ok?
    requires var k, d := KeyData(key), Utf8Encode(message); aes.open(k, iv, aes.seal(k, iv, d)) == Some(d)
    requires utf8Decode(Utf8Encode(message)) == message
    ensures Decrypt(Sealed(message, key, iv, aes).value, key, aes, utf8Decode) == message
  {
    KeyImportsIffAscii(key);
    var ct := aes.seal(KeyData(key), iv, Utf8Encode(message));
    DecodeEncode(iv + ct);
    SplitFrame(iv, ct);
  }

  /** Keys with the same derived key decrypt alike. */
  lemma SameDerivedKeyDecryptsAlike(encrypted: string, a: string, b: string, aes: Aead, utf8Decode: seq<byte> -> string)
    requires DeriveKey(a) == DeriveKey(b)
    ensures Decrypt(encrypted, a, aes, utf8Decode) == Decrypt(encrypted, b, aes, utf8Decode)
  {
  }
}
