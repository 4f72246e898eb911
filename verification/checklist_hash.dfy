/**
 * The checklist fingerprint printed in the report footer: the SHA-256 digest
 * of the flattened checklist, of which the first 8 bytes are written as 16
 * lowercase hexadecimal digits.
 */
module ChecklistHash {
  import Checklist

  type Byte = b: int | 0 <= b < 256

  /** A character `toString(16)` produces: `0`-`9` or `a`-`f`. */
  predicate IsLowerHex(c: char) {
    '0' <= c <= '9' || 'a' <= c <= 'f'
  }

  /** The lowercase hexadecimal digit for `d`. */
  function HexDigit(d: int): (c: char)
    requires 0 <= d < 16
    ensures IsLowerHex(c)
  {
    if d < 10 then ('0' as int + d) as char else ('a' as int + d - 10) as char
  }

  /** `b.toString(16)`: one digit below 16, two digits otherwise. */
  function ToHex(b: Byte): string {
    if b < 16 then [HexDigit(b)] else [HexDigit(b / 16), HexDigit(b % 16)]
  }

  /** `s.padStart(2, '0')`. */
  function PadStart2(s: string): string {
    if |s| >= 2 then s else seq(2 - |s|, _ => '0') + s
  }

  /** One byte as two lowercase hexadecimal digits, high digit first. */
  function ByteHex(b: Byte): (r: string)
    ensures |r| == 2 && r == [HexDigit(b / 16), HexDigit(b % 16)]
  {
    PadStart2(ToHex(b))
  }

  function Min(a: int, b: int): int {
    if a <= b then a else b
  }

  /** Every byte rendered with `ByteHex`, joined without separator. */
  function HexOfBytes(bytes: seq<Byte>): (s: string)
    ensures |s| == 2 * |bytes|
    ensures AllLowerHex(s)
  {
    if |bytes| == 0 then "" else ByteHex(bytes[0]) + HexOfBytes(bytes[1..])
  }

  /**
   * `Array.from(b).map(hex).slice(0, 8).join('')`; mapping every byte and then
   * keeping the first 8 renderings is rendering the first 8 bytes.
   */
  function HexPrefix(digest: seq<Byte>): (s: string)
    ensures |s| == 2 * Min(8, |digest|) && |s| <= 16
    ensures |digest| >= 8 ==> |s| == 16
    ensures AllLowerHex(s)
  {
    HexOfBytes(digest[..Min(8, |digest|)])
  }

  /** The value of a lowercase hexadecimal digit. */
  function DigitValue(c: char): (d: int)
    requires IsLowerHex(c)
    ensures 0 <= d < 16 && HexDigit(d) == c
  {
    if c <= '9' then c as int - '0' as int else c as int - 'a' as int + 10
  }

  lemma DigitValueOfHexDigit(d: int)
    requires 0 <= d < 16
    ensures DigitValue(HexDigit(d)) == d
  {
  }

  predicate AllLowerHex(s: string) {
    forall i :: 0 <= i < |s| ==> IsLowerHex(s[i])
  }

  /** Reads a string of digit pairs back as bytes. */
  function ParseHex(s: string): (r: seq<Byte>)
    requires |s| % 2 == 0 && AllLowerHex(s)
    ensures |r| == |s| / 2
    decreases |s|
  {
    if |s| == 0 then []
    else [DigitValue(s[0]) * 16 + DigitValue(s[1])] + ParseHex(s[2..])
  }

  /** Reading the rendering of a byte sequence gives the bytes back. */
  lemma {:induction false} ParseHexOfBytes(bytes: seq<Byte>)
    ensures ParseHex(HexOfBytes(bytes)) == bytes
    decreases |bytes|
  {
    if |bytes| > 0 {
      var s := HexOfBytes(bytes);
      var b := bytes[0];
      ParseHexOfBytes(bytes[1..]);
      assert s[0] == HexDigit(b / 16) && s[1] == HexDigit(b % 16);
      DigitValueOfHexDigit(b / 16);
      DigitValueOfHexDigit(b % 16);
      assert s[2..] == HexOfBytes(bytes[1..]);
      assert bytes == [b] + bytes[1..];
    }
  }

  /**
   * The fingerprint text keeps the first 8 bytes of the digest (all of it if
   * shorter), two lowercase hexadecimal digits each, and reads back as them.
   */
  lemma HexPrefixRoundTrip(digest: seq<Byte>)
    ensures var s := HexPrefix(digest);
      && |s| == 2 * Min(8, |digest|)
      && AllLowerHex(s)
      && ParseHex(s) == digest[..Min(8, |digest|)]
  {
    ParseHexOfBytes(digest[..Min(8, |digest|)]);
  }

  /**
   * `computeChecklistHash(rooms)`, with the digest function given: for a
   * SHA-256 digest (32 bytes) the result is 16 lowercase hexadecimal digits.
   */
  function ComputeChecklistHash(rooms: seq<Checklist.Room>, sha256: string -> seq<Byte>): (r: string)
    ensures |r| == 2 * Min(8, |sha256(Checklist.Flatten(rooms))|) && AllLowerHex(r)
    ensures |sha256(Checklist.Flatten(rooms))| >= 8 ==> |r| == 16
    ensures ParseHex(r) == sha256(Checklist.Flatten(rooms))[..Min(8, |sha256(Checklist.Flatten(rooms))|)]
  {
    var digest := sha256(Checklist.Flatten(rooms));
    HexPrefixRoundTrip(digest);
    HexPrefix(digest)
  }
}
