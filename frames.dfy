/**
  The frame and message values of the modern ("Hybi") dialect, held abstractly:
  a frame is an opcode, a final-fragment flag and a payload; a message is the
  sequence of frames taken so far plus its finalised flag.
*/
module Frames {

  /** The four-bit opcode of a frame header (RFC 6455 section 5.2). */
  type Opcode = x: int | 0 <= x < 16

  const CONTINUATION: Opcode := 0
  const TEXT: Opcode := 1
  const BINARY: Opcode := 2
  const CLOSE: Opcode := 8
  const PING: Opcode := 9
  const PONG: Opcode := 10

  /**
    Control frames are those whose opcode has its top bit set (RFC 6455
    section 5.5): Close, Ping, Pong and the reserved control codes; all other
    opcodes carry message data.
  */
  predicate IsControl(op: Opcode)
  {
    op >= 8
  }

  /** A decoded, unmasked frame. PHP strings are byte strings: one char per byte. */
  datatype Frame = Frame(opcode: Opcode, fin: bool, payload: string)

  /** The frame the frame factory builds for a bare opcode: final, no payload. */
  function Create(op: Opcode): Frame
  {
    Frame(op, true, "")
  }

  /** A message under assembly: its frames in arrival order and whether it is finalised. */
  datatype Message = Message(frames: seq<Frame>, finalised: bool)

  /** A new message started from one frame; it is finalised iff that frame is final. */
  function FromFrame(f: Frame): Message
  {
    Message([f], f.fin)
  }

  /** Appends a frame; the message is finalised iff the frame appended last is final. */
  function TakeFrame(m: Message, f: Frame): Message
  {
    Message(m.frames + [f], f.fin)
  }

  predicate NoneFinal(fs: seq<Frame>)
  {
    forall i :: 0 <= i < |fs| ==> !fs[i].fin
  }

  /** A message still waiting for fragments: no frame of it is final yet. */
  predicate IsOpen(m: Message)
  {
    |m.frames| > 0 && !m.finalised && NoneFinal(m.frames)
  }

  /** A whole message: non-final fragments closed by exactly one final frame. */
  predicate IsComplete(m: Message)
  {
    |m.frames| > 0 && m.finalised && m.frames[|m.frames| - 1].fin
    && NoneFinal(m.frames[..|m.frames| - 1])
  }

  /** The application payload of a sequence of frames. */
  function Payloads(fs: seq<Frame>): string
  {
    if fs == [] then "" else fs[0].payload + Payloads(fs[1..])
  }
}
