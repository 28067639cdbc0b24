/** What one socket can do to its owner.

  The kernel is an adversary. A `recv` may deliver any prefix of the bytes on the wire that fits the
  window it is given, report the end of the stream, have nothing to deliver, or fail; a `send` may
  accept any number of the bytes it is given, refuse for the moment, or fail. An offer larger than
  the window is cut to the window, so every sequence of events is a possible run. */
module Net {

  newtype byte = x: int | 0 <= x < 256

  datatype RecvResult = Data(bytes: seq<byte>) | Eof | RecvAgain | RecvFail

  datatype SendResult = Sent(n: nat) | SendAgain | SendFail

  /** An event-loop turn for one connection. `Readable` carries the outcome of the read and of the
      write that a server may attempt in the same callback. */
  datatype Event =
    | Readable(r: RecvResult, s: SendResult)
    | Writable(w: SendResult)
    | Expire

  function Min(a: nat, b: nat): nat {
    if a <= b then a else b
  }

  /** The part of `bytes` that a read into `window` bytes of memory delivers. */
  function Taken(bytes: seq<byte>, window: nat): (got: seq<byte>)
    ensures got <= bytes && |got| <= window
    ensures |bytes| <= window ==> got == bytes
    ensures |bytes| > window ==> |got| == window
  {
    bytes[..Min(|bytes|, window)]
  }
}
