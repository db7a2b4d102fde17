/** Identifiers: a UUID is sixteen bytes, written in its canonical
    `8-4-4-4-12` lower-case hexadecimal form wherever the handlers format it
    with `%s`. Parsing text into a UUID is left to the caller (see
    `Requests.Upload.pathId`). */
module Ids {

  newtype byte = x: int | 0 <= x < 256

  type Uuid = b: seq<byte> | |b| == 16
    witness [0, 0, 0, 0, 0, 0, 0, 0, 0, 0, 0, 0, 0, 0, 0, 0]

  const HexDigits: string := "0123456789abcdef"

  predicate IsHexDigit(ch: char)
  {
    ('0' <= ch <= '9') || ('a' <= ch <= 'f')
  }

  /** The lower-case hex digit of a nibble. */
  function HexDigit(n: int): (ch: char)
    requires 0 <= n < 16
    ensures IsHexDigit(ch)
  {
    HexDigits[n]
  }

  /** Two hex digits per byte, high nibble first. */
  function Hex(bytes: seq<byte>): (s: string)
    ensures |s| == 2 * |bytes|
    ensures forall k :: 0 <= k < |s| ==> IsHexDigit(s[k])
  {
    if |bytes| == 0 then ""
    else
      var b := bytes[0] as int;
      [HexDigit(b / 16), HexDigit(b % 16)] + Hex(bytes[1..])
  }

  /** `uuid.UUID.String()`: the canonical 36-character text, hex digits
      with hyphens after the 4th, 6th, 8th and 10th byte. */
  function Text(id: Uuid): (s: string)
    ensures |s| == 36
    ensures forall k :: 0 <= k < |s| ==> IsHexDigit(s[k]) || s[k] == '-'
    ensures s[8] == '-' && s[13] == '-' && s[18] == '-' && s[23] == '-'
    ensures forall k :: 0 <= k < 36 && k !in {8, 13, 18, 23} ==> IsHexDigit(s[k])
  {
    Hex(id[..4]) + "-" + Hex(id[4..6]) + "-" + Hex(id[6..8]) + "-" + Hex(id[8..10]) + "-" + Hex(id[10..])
  }

  /** The canonical text never contains a path or locator separator, so a
      UUID can be used verbatim as a file name and inside a locator. */
  lemma TextHasNoSeparators(id: Uuid)
    ensures '/' !in Text(id) && ',' !in Text(id) && '.' !in Text(id)
  {
    var s := Text(id);
    forall k | 0 <= k < |s|
      ensures s[k] != '/' && s[k] != ',' && s[k] != '.'
    {
      assert IsHexDigit(s[k]) || s[k] == '-';
    }
  }
}
