/** Bytes as lower case hex, which two generated tables are written in. */
module HexText {

  type Byte = b: int | 0 <= b < 256

  predicate IsNibble(n: int) { 0 <= n < 16 }

  function HexDigit(n: int): (c: char)
    requires IsNibble(n)
    ensures '0' <= c <= '9' || 'a' <= c <= 'f'
  {
    if n < 10 then ('0' as int + n) as char else ('a' as int + n - 10) as char
  }

  /** Python's `bytes.hex()`. */
  function Hex(data: seq<Byte>): (text: string)
    ensures |text| == 2 * |data|
  {
    if data == [] then [] else Hex(data[..|data| - 1]) + HexByte(data[|data| - 1])
  }

  function HexByte(b: Byte): (text: string)
    ensures |text| == 2
  {
    [HexDigit(b / 16), HexDigit(b % 16)]
  }

  lemma {:induction false} HexAt(data: seq<Byte>, i: nat)
    requires i < |data|
    ensures Hex(data)[2 * i] == HexDigit(data[i] / 16) && Hex(data)[2 * i + 1] == HexDigit(data[i] % 16)
  {
    if i < |data| - 1 { HexAt(data[..|data| - 1], i); }
  }

  /** Each byte is two digits, the higher half first. */
  lemma {:induction false} HexMeans(data: seq<Byte>, i: nat)
    requires i < |data|
    ensures Hex(data)[2 * i] == "0123456789abcdef"[data[i] / 16]
    ensures Hex(data)[2 * i + 1] == "0123456789abcdef"[data[i] % 16]
  {
    hide Hex;
    HexAt(data, i);
    DigitMeans(data[i] / 16);
    DigitMeans(data[i] % 16);
  }

  lemma {:induction false} DigitMeans(n: int)
    requires IsNibble(n)
    ensures HexDigit(n) == "0123456789abcdef"[n]
  {
  }

  predicate HexOnly(text: string) {
    forall i :: 0 <= i < |text| ==> '0' <= text[i] <= '9' || 'a' <= text[i] <= 'f'
  }

  lemma {:induction false} HexIsHex(data: seq<Byte>)
    ensures HexOnly(Hex(data))
  {
    if data != [] { HexIsHex(data[..|data| - 1]); }
  }
}
