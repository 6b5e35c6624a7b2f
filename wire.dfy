/** Bytes, control characters and the 3-byte frame header of the host/target serial protocol. */
module Wire {

  /** One octet on the serial link. */
  newtype byte = x: int | 0 <= x < 256

  /** Marker of a normal result frame; also the upload mode byte of a non-verbose upload. */
  const SOH: byte := 0x01
  /** Marker of an exception result frame; also the upload mode byte of a verbose upload. */
  const SOH_EXCEPTION: byte := 0x02
  /** Inquiry byte sent by the host during the handshake. */
  const ENQ: byte := 0x05
  /** Acknowledge byte the target answers an inquiry with. */
  const ACK: byte := 0x06
  /** '!' : acknowledges a frame header. */
  const HEADER_ACK: byte := 0x21
  /** '#' : acknowledges one group of payload bytes. */
  const CHUNK_ACK: byte := 0x23
  /** '?' : the value the transmitter's acknowledge variable starts with. */
  const NO_ACK: byte := 0x3F
  /** NUL, written after a received payload. */
  const NUL: byte := 0x00

  /** Largest payload the 16-bit length field can describe. */
  const MAX_FRAME: nat := 65535

  predicate IsMarker(b: byte) {
    b == SOH || b == SOH_EXCEPTION
  }

  /** The mode byte of an upload header. */
  function ModeByte(verbose: bool): (m: byte)
    ensures IsMarker(m)
    ensures verbose <==> m == SOH_EXCEPTION
  {
    if verbose then 0x02 else 0x01
  }

  /** `(unsigned char)(len >> 8)`: for a length that fits 16 bits the shift is a division by 256. */
  function HighByte(len: nat): byte
    requires len <= MAX_FRAME
  {
    (len / 256) as byte
  }

  /** `(unsigned char)(len & 0xFF)`: masking the low eight bits is the remainder modulo 256. */
  function LowByte(len: nat): byte
    requires len <= MAX_FRAME
  {
    (len % 256) as byte
  }

  /** The upload header: mode byte, then the length big-endian. */
  function EncodeHeader(verbose: bool, len: nat): (h: seq<byte>)
    requires len <= MAX_FRAME
    ensures |h| == 3
    ensures IsMarker(h[0]) && (h[0] == SOH_EXCEPTION <==> verbose)
    ensures h[1] as int * 256 + h[2] as int == len
  {
    [ModeByte(verbose), HighByte(len), LowByte(len)]
  }

  /** `((unsigned short)len_h << 8) | len_l`, the length a result header announces: shifting the
      high byte left by eight multiplies it by 256, and or-ing in a byte below 256 adds it. */
  function DecodeLength(hi: byte, lo: byte): (len: nat)
    ensures len <= MAX_FRAME
  {
    hi as int * 256 + lo as int
  }

  /** Decoding the length bytes of an encoded header gives back the length. */
  lemma HeaderRoundTrip(verbose: bool, len: nat)
    requires len <= MAX_FRAME
    ensures var h := EncodeHeader(verbose, len); DecodeLength(h[1], h[2]) == len
  {
  }

  /** Encoding a decoded length gives back the same two bytes. */
  lemma LengthRoundTrip(verbose: bool, hi: byte, lo: byte)
    ensures EncodeHeader(verbose, DecodeLength(hi, lo))[1..] == [hi, lo]
  {
  }
}
