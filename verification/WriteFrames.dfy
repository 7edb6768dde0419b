/** The frames the writer goroutine handles, before encoding (write_scheduler.go). */
module WriteFrames {
  import opened Bytes

  const DATA: byte := 1
  const NOOP: byte := 2
  const FIN: byte := 3
  const PING: byte := 4
  const PONG: byte := 5
  const UPD: byte := 6
  const ACK: byte := 7
  const GOAWAY: byte := 8
  const RST: byte := 9

  /** What the frame still has to look up when it is written: nothing, the channel's
      current acknowledgement, or a scope's unannounced credit. */
  datatype Control = Fixed | AckOf | CreditOf

  /** `ref` is the shared retransmission record, if the frame holds one. */
  datatype WriteFrame = WriteFrame(flag: byte, chID: nat, length: nat, offset: nat,
                                   payload: Option<seq<byte>>, control: Control, ref: Option<nat>)

  const Blank := WriteFrame(0, 0, 0, 0, None, Fixed, None)
}
