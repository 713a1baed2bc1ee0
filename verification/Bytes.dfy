/** Bytes, shared by the components that work below the level of characters. */
module Bytes {
  newtype byte = x: int | 0 <= x < 256

  const NEWLINE: byte := 10
  const CARRIAGE_RETURN: byte := 13
  const SPACE: byte := 32

  function Ascii(text: string): seq<byte>
    requires forall i :: 0 <= i < |text| ==> text[i] < 128 as char
  {
    seq(|text|, i requires 0 <= i < |text| => text[i] as int as byte)
  }
}
