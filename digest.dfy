/**
 * The digest side of webhook authentication. HMAC-SHA256 itself is not modelled: it
 * is the parameter `mac`, the raw tag for a key and a message. What is modelled is
 * what the handlers do with it: render it as lowercase hexadecimal (`hexdigest()`),
 * prefix it with "sha256=", and compare it with the header using
 * `hmac.compare_digest`, which refuses `str` arguments that are not pure ASCII.
 */
module Digest {
  import opened Wrappers
  import opened Text

  type byte = x: int | 0 <= x < 256
  type Bytes = seq<byte>

  /** A keyed message authentication code: HMAC-SHA256 over the UTF-8 encoded key. */
  type Mac = (string, Bytes) -> Bytes

  predicate IsHexDigit(c: char) {
    ('0' <= c <= '9') || ('a' <= c <= 'f')
  }

  /** The digit for `n` in "0123456789abcdef". */
  function HexDigit(n: nat): (c: char)
    requires n < 16
    ensures IsHexDigit(c)
  {
    if n < 10 then ('0' as int + n) as char else ('a' as int + n - 10) as char
  }

  /** The inverse of HexDigit on the lowercase hexadecimal alphabet. */
  function DigitValue(c: char): (n: nat)
    requires IsHexDigit(c)
    ensures n < 16 && HexDigit(n) == c
    ensures forall m :: 0 <= m < 16 && HexDigit(m) == c ==> m == n
  {
    if c <= '9' then c as int - '0' as int else c as int - 'a' as int + 10
  }

  /** `bytes.hex()` / `hexdigest()`: two lowercase hexadecimal digits per byte, high nibble first. */
  function Hex(d: Bytes): (s: string)
    ensures |s| == 2 * |d|
    ensures forall i :: 0 <= i < |s| ==> IsHexDigit(s[i])
  {
    if d == [] then [] else [HexDigit(d[0] / 16), HexDigit(d[0] % 16)] + Hex(d[1..])
  }

  /** Reads back what Hex writes. */
  function UnHex(s: string): (d: Bytes)
    requires |s| % 2 == 0
    requires forall i :: 0 <= i < |s| ==> IsHexDigit(s[i])
    ensures 2 * |d| == |s|
  {
    if s == [] then [] else [16 * DigitValue(s[0]) + DigitValue(s[1])] + UnHex(s[2..])
  }

  lemma {:induction false} UnHexHex(d: Bytes)
    ensures UnHex(Hex(d)) == d
  {
    if d != [] {
      var hi, lo := d[0] / 16, d[0] % 16;
      var s := Hex(d);
      assert s == [HexDigit(hi), HexDigit(lo)] + Hex(d[1..]);
      assert s[0] == HexDigit(hi) && s[1] == HexDigit(lo) && s[2..] == Hex(d[1..]);
      assert DigitValue(s[0]) == hi && DigitValue(s[1]) == lo;
      assert 16 * hi + lo == d[0];
      UnHexHex(d[1..]);
      assert UnHex(s) == [d[0]] + d[1..];
      assert [d[0]] + d[1..] == d;
    }
  }

  /** Distinct tags render as distinct digests: no information is lost by hex encoding. */
  lemma HexInjective(d1: Bytes, d2: Bytes)
    ensures Hex(d1) == Hex(d2) ==> d1 == d2
  {
    UnHexHex(d1);
    UnHexHex(d2);
  }

  /** `hmac.new(key.encode(), body, hashlib.sha256).hexdigest()`. */
  function HexDigest(mac: Mac, key: string, body: Bytes): string {
    Hex(mac(key, body))
  }

  const SignaturePrefix: string := "sha256="

  /** The only header value a handler accepts for `body` under `key`. */
  function ExpectedSignature(mac: Mac, key: string, body: Bytes): (s: string)
    ensures |s| == |SignaturePrefix| + 2 * |mac(key, body)|
    ensures s[..|SignaturePrefix|] == SignaturePrefix
    ensures IsAscii(s)
  {
    SignaturePrefix + HexDigest(mac, key, body)
  }

  /**
   * `hmac.compare_digest(a, b)` on two `str` values: equality (in constant time, which
   * is not modelled), or `None` for the TypeError raised when either side holds a
   * character outside ASCII.
   */
  function CompareDigest(a: string, b: string): (r: Option<bool>)
    ensures r.None? <==> !IsAscii(a) || !IsAscii(b)
    ensures r.Some? ==> (r.value <==> a == b)
  {
    if !IsAscii(a) || !IsAscii(b) then None else Some(a == b)
  }
}
