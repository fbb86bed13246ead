/** Register words and the abstract outcomes of the Modbus client calls the hub
    makes: a read of `count` holding registers, and a write of a register list.
    The TCP client itself is not modelled; only what its answers mean to the hub. */
module Modbus {

  import opened Wrappers

  /** One 16-bit holding register, as an unsigned number. */
  type Word = w: int | 0 <= w < 0x1_0000

  /** The INT16 view of a word (two's complement). */
  function Int16(w: Word): (x: int)
    ensures -0x8000 <= x < 0x8000
    ensures x % 0x1_0000 == w
  {
    if w >= 0x8000 then w - 0x1_0000 else w
  }

  /** The word a device stores for a signed 16-bit value. */
  function WordOfInt16(x: int): (w: Word)
    requires -0x8000 <= x < 0x8000
    ensures (x < 0 ==> w >= 0x8000) && (x >= 0 ==> w < 0x8000)
  {
    if x < 0 then x + 0x1_0000 else x
  }

  /** The INT16 view and its encoding are inverse bijections. */
  lemma Int16RoundTrip(x: int, w: Word)
    requires -0x8000 <= x < 0x8000
    ensures Int16(WordOfInt16(x)) == x
    ensures WordOfInt16(Int16(w)) == w
  {
  }

  /** A read request: `count` registers from `address` of unit `slave`. */
  datatype ReadRequest = ReadRequest(slave: nat, address: nat, count: nat)

  /** What `read_holding_registers` gives back: the register list of a good
      response, a response whose `isError()` is true, or an exception raised
      by the client. */
  datatype ReadOutcome =
    | Registers(words: seq<Word>)
    | ErrorResponse
    | Raised

  /** A call of `write_registers(unit, address, payload)`. */
  datatype WriteRequest = WriteRequest(slave: nat, address: nat, payload: seq<Word>)

  /** The answer to a write: acknowledged, or a response whose `isError()` is true. */
  datatype WriteOutcome = Acknowledged | WriteError

  /** The single-register payload `BinaryPayloadBuilder.add_16bit_uint(v)` builds:
      `None` when `v` does not fit an unsigned 16-bit field (packing raises). */
  function Uint16Payload(v: int): (p: Option<seq<Word>>)
    ensures p.Some? <==> 0 <= v < 0x1_0000
    ensures p.Some? ==> |p.value| == 1 && p.value[0] == v
  {
    if 0 <= v < 0x1_0000 then Some([v]) else None
  }
}
