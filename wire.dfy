/** Wire-level vocabulary shared by the message layer and TSIG: fixed-width
    unsigned integers, byte strings, the record header and the records held
    in a message's sections. */
module Wire {

  /** The usual Some/None wrapper, for collaborators that can fail. */
  datatype Option<+T> = None | Some(value: T)

  newtype uint8 = x: int | 0 <= x < 0x100
  newtype uint16 = x: int | 0 <= x < 0x1_0000
  newtype uint32 = x: int | 0 <= x < 0x1_0000_0000
  newtype uint64 = x: int | 0 <= x < 0x1_0000_0000_0000_0000

  /** A Go `[]byte`, or a Go `string` used as raw bytes. */
  type Bytes = seq<uint8>

  /** Go's conversion `uint16(n)` of a non-negative length: the 16-bit value
      that differs from `n` by a multiple of 2^16, which is `n` itself when it
      fits. */
  function Uint16Of(n: nat): (r: uint16)
    ensures (n - r as int) % 0x1_0000 == 0
    ensures n < 0x1_0000 ==> r as int == n
  {
    (n % 0x1_0000) as uint16
  }

  /** Resource-record type code of a TSIG record (RFC 2845, section 2.3). */
  const TypeTSIG: uint16 := 250

  /** The header every resource record carries. */
  datatype RRHeader = RRHeader(Name: string, Rrtype: uint16, Class: uint16, Ttl: uint32, Rdlength: uint16)

  /** A resource record as the message layer holds it: its header and its
      rdata, the latter kept as opaque bytes. */
  datatype Record = Record(Hdr: RRHeader, Rdata: Bytes)

  /** An entry of the question section. */
  datatype Question = Question(Name: string, Qtype: uint16, Qclass: uint16)
}
