/** Constants and message types shared by the client side and the middleware side
    of the asynchronous send protocol. */
module SendTypes {

  /** Sequence numbers are unsigned 32-bit integers. */
  const U32: nat := 0x1_0000_0000

  /** Unsigned 32-bit arithmetic discards the carry. */
  function Wrap(n: nat): (r: nat)
    ensures r < U32
    ensures n < U32 ==> r == n
  {
    n % 0x1_0000_0000
  }

  const MAX_PENDING_SENDS: nat := 256
  const MAX_ACK_BLOCK_SIZE: nat := 64
  const DEFAULT_MAX_BUFFER_SIZE: nat := 16 * 1024 * 1024
  const MIN_BUFFER_CHUNK: nat := DEFAULT_MAX_BUFFER_SIZE / 512

  /** The content of one message. */
  datatype Payload = Payload(content: seq<bv8>) {
    function Size(): nat { |content| }
  }

  /** Messages on the wire from the client to the middleware. */
  datatype ToMiddleware = AsyncSend(seqNr: nat, payload: Payload) | DeleteSocket

  /** Messages on the wire from the middleware to the client. */
  datatype ToClient = CumulativeAck(seqNr: nat) | Retransmit(seqNr: nat) | DeleteResponse

  /** A packet the middleware accepted and handed to its interfaces. */
  datatype Job = Job(seqNr: nat, payload: Payload)
}
