/**
 * The card identifier text built in `readRfidCard`: for every byte of the
 * card's serial number, a leading "0" when the byte is below 0x10, then the
 * byte in Arduino's `String(b, HEX)` form (lower-case digits, no leading
 * zero), and finally the whole string upper-cased.
 */
module UidFormat {
  import opened Text

  newtype byte = x: int | 0 <= x < 256

  /** An upper-case hexadecimal digit. */
  function UpperHexDigit(d: int): (c: char)
    requires 0 <= d < 16
    ensures IsHexUpper(c)
  {
    if d < 10 then ('0' as int + d) as char else ('A' as int + d - 10) as char
  }

  /** A lower-case hexadecimal digit, as `String(b, HEX)` prints it. */
  function LowerHexDigit(d: int): (c: char)
    requires 0 <= d < 16
    ensures UpperChar(c) == UpperHexDigit(d)
  {
    if d < 10 then ('0' as int + d) as char else ('a' as int + d - 10) as char
  }

  predicate IsHexUpper(c: char) {
    '0' <= c <= '9' || 'A' <= c <= 'F'
  }

  /** Arduino's `String(b, HEX)`: one digit for bytes below 0x10, two otherwise. */
  function ArduinoHex(b: byte): (s: string)
    ensures |s| == (if b < 0x10 then 1 else 2)
  {
    if b < 0x10 then [LowerHexDigit(b as int)]
    else [LowerHexDigit(b as int / 16), LowerHexDigit(b as int % 16)]
  }

  /** Character `k` of the formatted identifier: high nibble at even k, low nibble at odd k. */
  function UidChar(uid: seq<byte>, k: int): (ch: char)
    requires 0 <= k < 2 * |uid|
  {
    var b := uid[k / 2] as int;
    UpperHexDigit(if k % 2 == 0 then b / 16 else b % 16)
  }

  /** The identifier text: two upper-case hex digits per byte, high nibble first. */
  function UidText(uid: seq<byte>): (s: string)
    ensures |s| == 2 * |uid|
  {
    seq(2 * |uid|, k requires 0 <= k < 2 * |uid| => UidChar(uid, k))
  }

  /** The conversion loop of `readRfidCard`, followed by `toUpperCase`. */
  method FormatUid(uid: seq<byte>) returns (s: string)
    ensures s == UidText(uid)
  {
    var raw := "";
    for i := 0 to |uid|
      invariant |raw| == 2 * i
      invariant forall k :: 0 <= k < 2 * i ==> UpperChar(raw[k]) == UidChar(uid, k)
    {
      var b := uid[i];
      var piece := (if b < 0x10 then "0" else "") + ArduinoHex(b);
      assert UpperChar(piece[0]) == UidChar(uid, 2 * i);
      assert UpperChar(piece[1]) == UidChar(uid, 2 * i + 1);
      raw := raw + piece;
    }
    s := ToUpper(raw);
  }

  /** Every character of an identifier is one of 0-9, A-F. */
  lemma UidTextIsUpperHex(uid: seq<byte>)
    ensures forall k :: 0 <= k < |UidText(uid)| ==> IsHexUpper(UidText(uid)[k])
  {
  }

  /** Byte `i` occupies characters 2i and 2i+1, and a byte below 0x10 is zero-padded. */
  lemma UidTextByte(uid: seq<byte>, i: int)
    requires 0 <= i < |uid|
    ensures UidText(uid)[2 * i] == UpperHexDigit(uid[i] as int / 16)
    ensures UidText(uid)[2 * i + 1] == UpperHexDigit(uid[i] as int % 16)
    ensures uid[i] < 0x10 ==> UidText(uid)[2 * i] == '0'
  {
  }

  lemma UpperHexDigitInjective(d: int, e: int)
    requires 0 <= d < 16 && 0 <= e < 16
    requires UpperHexDigit(d) == UpperHexDigit(e)
    ensures d == e
  {
  }

  /** Two serial numbers of the same length give the same text only if they are equal. */
  lemma UidTextInjective(a: seq<byte>, b: seq<byte>)
    requires |a| == |b|
    requires UidText(a) == UidText(b)
    ensures a == b
  {
    forall i | 0 <= i < |a|
      ensures a[i] == b[i]
    {
      UidTextByte(a, i);
      UidTextByte(b, i);
      UpperHexDigitInjective(a[i] as int / 16, b[i] as int / 16);
      UpperHexDigitInjective(a[i] as int % 16, b[i] as int % 16);
    }
  }

  /** The bytes 0x0A, 0x3C format as "0A3C". */
  lemma UidTextExample()
    ensures UidText([0x0A, 0x3C]) == "0A3C"
  {
    var t := UidText([0x0A, 0x3C]);
    assert t[0] == '0' && t[1] == 'A' && t[2] == '3' && t[3] == 'C';
  }
}
