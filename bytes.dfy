/**
 * Bytes and 16-bit Modbus registers, and the US-ASCII charset the payload text is
 * converted with.
 */
module Bytes {

  newtype byte = x: int | 0 <= x < 0x100

  /** A Modbus holding register: an unsigned 16-bit value. */
  newtype u16 = x: int | 0 <= x < 0x1_0000

  /**
   * The register built from two bytes, `hi` first. Modbus puts the high byte of a
   * register first on the wire (section 4.2 of the Modbus Application Protocol
   * Specification V1.1b3), so this is the register whose wire bytes are `hi`, `lo`.
   */
  function MakeRegister(hi: byte, lo: byte): (r: u16)
    ensures HighByte(r) == hi && LowByte(r) == lo
  {
    (hi as int * 0x100 + lo as int) as u16
  }

  /** The first (most significant) byte of a register on the wire. */
  function HighByte(r: u16): byte
  {
    (r as int / 0x100) as byte
  }

  /** The second (least significant) byte of a register on the wire. */
  function LowByte(r: u16): byte
  {
    (r as int % 0x100) as byte
  }

  /** A register is determined by its two bytes: MakeRegister and the byte views are inverse. */
  lemma RegisterOfBytes(r: u16)
    ensures MakeRegister(HighByte(r), LowByte(r)) == r
  {
  }

  /** The byte `String.getBytes` yields for one character under US-ASCII: unmappable characters become '?'. */
  function CharToByte(c: char): byte
  {
    if c as int < 0x80 then c as int as byte else '?' as int as byte
  }

  /** The character `new String(bytes)` yields for one byte under US-ASCII: bytes above 0x7F decode to U+FFFD. */
  function ByteToChar(b: byte): char
  {
    if b < 0x80 then b as int as char else '�'
  }

  predicate IsAscii(s: string)
  {
    forall i :: 0 <= i < |s| ==> s[i] as int < 0x80
  }

  /** `s.getBytes()` with US-ASCII as the platform charset: one byte per character. */
  function GetBytes(s: string): (b: seq<byte>)
    ensures |b| == |s|
    ensures forall i :: 0 <= i < |s| ==> b[i] < 0x80
    ensures IsAscii(s) ==> NewString(b) == s
  {
    seq(|s|, i requires 0 <= i < |s| => CharToByte(s[i]))
  }

  /** `new String(b)` with US-ASCII as the platform charset: one character per byte. */
  function NewString(b: seq<byte>): (s: string)
    ensures |s| == |b|
  {
    seq(|b|, i requires 0 <= i < |b| => ByteToChar(b[i]))
  }

  /** Decoding then encoding a byte string below 0x80 gives back the same bytes. */
  lemma AsciiBytesRoundTrip(b: seq<byte>)
    requires forall i :: 0 <= i < |b| ==> b[i] < 0x80
    ensures GetBytes(NewString(b)) == b
  {
  }

  /** A zero byte appears in the encoding exactly where a NUL character appears in the text. */
  lemma GetBytesZero(s: string, i: int)
    requires 0 <= i < |s|
    ensures GetBytes(s)[i] == 0 <==> s[i] == '\0'
  {
  }
}
