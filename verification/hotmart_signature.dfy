/**
 * Authentication of a Hotmart webhook delivery: which header carries the
 * signature, how its `sha256=` prefix is removed, and the fail-closed
 * comparison of the hex-decoded signature with the HMAC-SHA256 digest of the
 * raw body. HMAC-SHA256 itself is a parameter; Node's hex codec for
 * `Buffer` is modelled exactly, since it decides which signatures compare.
 */
module HotmartSignature {
  import opened Wrappers

  type Byte = x: int | 0 <= x < 256

  /** The HMAC-SHA256 digest of a body under a secret, as raw bytes. */
  type Hmac = (string, string) -> seq<Byte>

  const SignatureHeader := "x-hotmart-signature"
  const HmacHeader := "x-hotmart-hmac"
  const Sha256Prefix := "sha256="

  /** A request header as a truthiness test sees it: absent reads as "". */
  function HeaderText(headers: map<string, string>, name: string): string {
    if name in headers then headers[name] else ""
  }

  /** Case-insensitive match of a regular expression without the `u` flag:
      only ASCII letters fold onto each other. */
  predicate SameIgnoringCase(a: char, b: char) {
    a == b ||
    ('a' <= a <= 'z' && b as int == a as int - 32) ||
    ('A' <= a <= 'Z' && b as int == a as int + 32)
  }

  predicate HasSha256Prefix(s: string) {
    |s| >= |Sha256Prefix| &&
    forall i :: 0 <= i < |Sha256Prefix| ==> SameIgnoringCase(s[i], Sha256Prefix[i])
  }

  /** `s.replace(/^sha256=/i, "")`: removes one leading prefix, in any letter case. */
  function StripSha256Prefix(s: string): (r: string)
    ensures HasSha256Prefix(s) ==> s == s[..|Sha256Prefix|] + r
    ensures !HasSha256Prefix(s) ==> r == s
  {
    if HasSha256Prefix(s) then s[|Sha256Prefix|..] else s
  }

  /**
   * `getHotmartSignature`: the first non-empty of the two headers, with its
   * prefix removed; no signature when both are absent or empty.
   */
  function GetSignature(headers: map<string, string>): (r: Option<string>)
    ensures r.None? <==> HeaderText(headers, SignatureHeader) == "" && HeaderText(headers, HmacHeader) == ""
    ensures HeaderText(headers, SignatureHeader) != "" ==>
              r == Some(StripSha256Prefix(headers[SignatureHeader]))
    ensures HeaderText(headers, SignatureHeader) == "" && HeaderText(headers, HmacHeader) != "" ==>
              r == Some(StripSha256Prefix(headers[HmacHeader]))
  {
    var raw := if HeaderText(headers, SignatureHeader) != "" then HeaderText(headers, SignatureHeader)
               else HeaderText(headers, HmacHeader);
    if raw == "" then None else Some(StripSha256Prefix(raw))
  }

  /** The signature header wins whenever it is non-empty, whatever the other says. */
  lemma SignatureHeaderWins(headers: map<string, string>, v: string, w: string)
    requires v != ""
    ensures GetSignature(headers[SignatureHeader := v][HmacHeader := w]) == Some(StripSha256Prefix(v))
  {
    var h := headers[SignatureHeader := v][HmacHeader := w];
    assert HeaderText(h, SignatureHeader) == v;
  }

  /** Only one prefix is stripped: "sha256=sha256=x" keeps its second prefix. */
  lemma StripsOnlyOnce(x: string)
    ensures StripSha256Prefix(Sha256Prefix + Sha256Prefix + x) == Sha256Prefix + x
  {
    var s := Sha256Prefix + Sha256Prefix + x;
    assert HasSha256Prefix(s) by {
      forall i | 0 <= i < |Sha256Prefix| ensures SameIgnoringCase(s[i], Sha256Prefix[i]) {
        assert s[i] == Sha256Prefix[i];
      }
    }
    assert s[|Sha256Prefix|..] == Sha256Prefix + x;
  }

  /** Any letter case of the prefix is stripped: "SHA256=" as well as "sha256=". */
  lemma StripsUpperCasePrefix(x: string)
    ensures StripSha256Prefix("SHA256=" + x) == x
  {
    var s := "SHA256=" + x;
    assert HasSha256Prefix(s) by {
      forall i | 0 <= i < |Sha256Prefix| ensures SameIgnoringCase(s[i], Sha256Prefix[i]) {
        assert s[i] == "SHA256="[i];
      }
    }
    assert s[|Sha256Prefix|..] == x;
  }

  // ---- Node's hex codec for Buffer ----

  predicate IsHexDigit(c: char) {
    '0' <= c <= '9' || 'a' <= c <= 'f' || 'A' <= c <= 'F'
  }

  function HexValue(c: char): (n: nat)
    requires IsHexDigit(c)
    ensures n < 16
  {
    if '0' <= c <= '9' then c as int - '0' as int
    else if 'a' <= c <= 'f' then c as int - 'a' as int + 10
    else c as int - 'A' as int + 10
  }

  /** The lower-case digit `digest("hex")` writes. */
  function HexDigit(n: nat): (c: char)
    requires n < 16
    ensures IsHexDigit(c) && HexValue(c) == n
  {
    if n < 10 then ('0' as int + n) as char else ('a' as int + n - 10) as char
  }

  /** Text made only of hex digits. */
  predicate HexText(s: string) {
    forall k :: 0 <= k < |s| ==> IsHexDigit(s[k])
  }

  /** Text made only of lower-case hex digits. */
  predicate LowerHexText(s: string) {
    forall k :: 0 <= k < |s| ==> IsHexDigit(s[k]) && !('A' <= s[k] <= 'F')
  }

  /** `digest("hex")`: two lower-case digits per byte. */
  function HexEncode(bs: seq<Byte>): (s: string)
    ensures |s| == 2 * |bs|
    ensures LowerHexText(s)
  {
    if bs == [] then ""
    else
      var rest := HexEncode(bs[1..]);
      var s := [HexDigit(bs[0] / 16), HexDigit(bs[0] % 16)] + rest;
      assert forall k :: 2 <= k < |s| ==> s[k] == rest[k - 2];
      s
  }

  /**
   * `Buffer.from(s, "hex")`: decodes digit pairs from the start and stops at
   * the first pair holding a non-hex character; an odd last digit is dropped.
   */
  function HexDecode(s: string): (bs: seq<Byte>)
    ensures 2 * |bs| <= |s|
    decreases |s|
  {
    if |s| < 2 || !IsHexDigit(s[0]) || !IsHexDigit(s[1]) then []
    else [HexValue(s[0]) * 16 + HexValue(s[1])] + HexDecode(s[2..])
  }

  /**
   * The decoder reads only hex digits, and stops exactly at the first pair
   * that is not two hex digits (or at a lone last digit).
   */
  lemma {:induction false} DecodeStopsAtFirstNonHexPair(s: string)
    ensures var n := 2 * |HexDecode(s)|;
            HexText(s[..n]) && (n + 1 < |s| ==> !IsHexDigit(s[n]) || !IsHexDigit(s[n + 1]))
    decreases |s|
  {
    if !(|s| < 2 || !IsHexDigit(s[0]) || !IsHexDigit(s[1])) {
      var rest := s[2..];
      DecodeStopsAtFirstNonHexPair(rest);
      var m := 2 * |HexDecode(rest)|;
      assert |HexDecode(s)| == 1 + |HexDecode(rest)|;
      assert s[..m + 2] == s[..2] + rest[..m];
      assert m + 3 < |s| ==> s[m + 2] == rest[m] && s[m + 3] == rest[m + 1];
    }
  }

  /** A leading pair of hex digits decodes to one byte, then decoding goes on after it. */
  lemma DecodePair(hi: char, lo: char, tail: string)
    requires IsHexDigit(hi) && IsHexDigit(lo)
    ensures HexDecode([hi, lo] + tail) == [HexValue(hi) * 16 + HexValue(lo)] + HexDecode(tail)
  {
    var s := [hi, lo] + tail;
    assert s[0] == hi && s[1] == lo && s[2..] == tail;
  }

  lemma ByteDigitsRoundTrip(b: Byte)
    ensures HexValue(HexDigit(b / 16)) * 16 + HexValue(HexDigit(b % 16)) == b
  {
  }

  /** The two digits written for a byte decode back to that byte. */
  lemma DecodeFirstByte(bs: seq<Byte>, rest: string)
    requires bs != []
    ensures HexDecode(HexEncode(bs) + rest) == [bs[0]] + HexDecode(HexEncode(bs[1..]) + rest)
  {
    var hi, lo := HexDigit(bs[0] / 16), HexDigit(bs[0] % 16);
    var tail := HexEncode(bs[1..]) + rest;
    assert HexEncode(bs) + rest == [hi, lo] + tail;
    DecodePair(hi, lo, tail);
    ByteDigitsRoundTrip(bs[0]);
  }

  /** Decoding is a left inverse of encoding, whatever text follows. */
  lemma {:induction false} DecodeEncodedPrefix(bs: seq<Byte>, rest: string)
    ensures HexDecode(HexEncode(bs) + rest) == bs + HexDecode(rest)
    decreases |bs|
  {
    if bs != [] {
      DecodeFirstByte(bs, rest);
      DecodeEncodedPrefix(bs[1..], rest);
      assert [bs[0]] + (bs[1..] + HexDecode(rest)) == bs + HexDecode(rest);
    } else {
      assert HexEncode(bs) + rest == rest;
    }
  }

  lemma HexRoundTrip(bs: seq<Byte>)
    ensures HexDecode(HexEncode(bs)) == bs
  {
    DecodeEncodedPrefix(bs, "");
    assert HexEncode(bs) + "" == HexEncode(bs);
  }

  /** A webhook secret counts as configured when it is set and non-empty. */
  predicate SecretConfigured(secret: Option<string>) {
    secret.Some? && secret.value != ""
  }

  /**
   * `isValidSignature`: fails closed without a secret or a signature; a
   * decoded signature of the wrong length is refused before any comparison;
   * otherwise the decoded bytes must equal the digest.
   */
  function IsValidSignature(secret: Option<string>, signature: Option<string>, body: string, hmac: Hmac): (ok: bool)
    ensures !SecretConfigured(secret) ==> !ok
    ensures signature.None? || signature.value == "" ==> !ok
    ensures signature.Some? && SecretConfigured(secret) && |HexDecode(signature.value)| != |hmac(secret.value, body)| ==> !ok
    ensures ok <==> SecretConfigured(secret) && signature.Some? && signature.value != "" &&
                    HexDecode(signature.value) == hmac(secret.value, body)
  {
    if !SecretConfigured(secret) || signature.None? || signature.value == "" then false
    else
      var computed := HexEncode(hmac(secret.value, body));
      var signatureBuffer := HexDecode(signature.value);
      var computedBuffer := HexDecode(computed);
      HexRoundTrip(hmac(secret.value, body));
      if |signatureBuffer| != |computedBuffer| then false
      else signatureBuffer == computedBuffer
  }

  /**
   * Because the decoder stops at the first non-hex pair, the correct hex
   * digest followed by any text that does not start with a hex pair is
   * still accepted.
   */
  lemma AcceptsDigestWithTrailingText(secret: string, body: string, hmac: Hmac, tail: string)
    requires secret != ""
    requires |tail| < 2 || !IsHexDigit(tail[0]) || !IsHexDigit(tail[1])
    requires hmac(secret, body) != [] || tail != ""
    ensures IsValidSignature(Some(secret), Some(HexEncode(hmac(secret, body)) + tail), body, hmac)
  {
    DecodeEncodedPrefix(hmac(secret, body), tail);
    assert HexDecode(tail) == [];
    assert hmac(secret, body) + [] == hmac(secret, body);
  }
}
