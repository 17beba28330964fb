/**
  The receive path of the Hybi connection as a function of its state: control
  frames are answered, data frames go to the assembler, and a finalised
  message is handed to `onMessage`.
*/
module Reception {
  import opened Wrappers
  import opened Frames
  import opened Transport
  import opened Assembler

  /** The state a Hybi connection's receive path reads and changes. */
  datatype HybiState = HybiState(slot: Option<Message>, sock: SocketView)

  /** The reply a control frame calls for: Close for Close, Pong for Ping, nothing otherwise. */
  function ReplyTo(f: Frame): seq<Wire>
  {
    if f.opcode == CLOSE then [Encoded(Create(CLOSE))]
    else if f.opcode == PING then [Encoded(Create(PONG))]
    else []
  }

  /** `processControlFrame`: Close is answered and then the transport is told to disconnect. */
  function Control(v: SocketView, f: Frame): SocketView
  {
    if f.opcode == CLOSE then Logged(Written(v, Encoded(Create(CLOSE))), Disconnected)
    else if f.opcode == PING then Written(v, Encoded(Create(PONG)))
    else v
  }

  /** Hands a dispatched message, if any, to `onMessage`. */
  function Deliver(v: SocketView, out: Option<Message>): SocketView
  {
    if out.Some? then Logged(v, Delivered(HybiMessage(out.value))) else v
  }

  /** `readFrame` on a decoded frame. */
  function Receive(st: HybiState, f: Frame): HybiState
  {
    if IsControl(f.opcode) then HybiState(st.slot, Control(st.sock, f))
    else
      var s := AssembleStep(st.slot, f);
      HybiState(s.slot, Deliver(st.sock, s.out))
  }

  /** Every frame of `fs`, received in order. */
  function ReceiveAll(st: HybiState, fs: seq<Frame>): HybiState
    decreases |fs|
  {
    if fs == [] then st else ReceiveAll(Receive(st, fs[0]), fs[1..])
  }

  /** The data frames of `fs`, in order. */
  function DataFrames(fs: seq<Frame>): seq<Frame>
  {
    if fs == [] then [] else (if IsControl(fs[0].opcode) then [] else [fs[0]]) + DataFrames(fs[1..])
  }

  /** The replies the control frames of `fs` call for, in order. */
  function Replies(fs: seq<Frame>): seq<Wire>
  {
    if fs == [] then [] else ReplyTo(fs[0]) + Replies(fs[1..])
  }

  function Wrap(ms: seq<Message>): seq<Dispatch>
  {
    if ms == [] then [] else [HybiMessage(ms[0])] + Wrap(ms[1..])
  }

  /**
    A received Close writes exactly one Close frame and then asks the transport
    to disconnect; a Ping writes exactly one Pong and nothing else; any other
    control opcode does nothing.
  */
  lemma ControlReplies(v: SocketView, f: Frame)
    ensures f.opcode == CLOSE ==>
      Control(v, f).trace == v.trace + [Wrote(Encoded(Create(CLOSE))), Disconnected]
    ensures f.opcode == PING ==> Control(v, f).trace == v.trace + [Wrote(Encoded(Create(PONG)))]
    ensures f.opcode != CLOSE && f.opcode != PING ==> Control(v, f) == v
  {
    if f.opcode == CLOSE {
      assert v.trace + [Wrote(Encoded(Create(CLOSE)))] + [Disconnected]
        == v.trace + [Wrote(Encoded(Create(CLOSE))), Disconnected];
    }
  }

  lemma {:induction false} WrapAppend(a: seq<Message>, b: seq<Message>)
    ensures Wrap(a + b) == Wrap(a) + Wrap(b)
  {
    if a == [] {
      assert a + b == b;
    } else {
      assert (a + b)[0] == a[0];
      assert (a + b)[1..] == a[1..] + b;
      WrapAppend(a[1..], b);
    }
  }

  /**
    Each frame goes one way only: a control frame leaves the open message and
    the dispatched messages alone and writes exactly its reply.
  */
  lemma ReceiveControl(st: HybiState, f: Frame)
    requires IsControl(f.opcode)
    ensures Receive(st, f).slot == st.slot
    ensures Deliveries(Receive(st, f).sock.trace) == Deliveries(st.sock.trace)
    ensures Writes(Receive(st, f).sock.trace) == Writes(st.sock.trace) + ReplyTo(f)
  {
    var v := st.sock;
    if f.opcode == CLOSE {
      var w := Encoded(Create(CLOSE));
      ProjectionsAppend(v.trace, [Wrote(w)]);
      ProjectionsAppend(v.trace + [Wrote(w)], [Disconnected]);
      assert Writes([Disconnected]) == [] && Deliveries([Wrote(w)]) == [];
    } else if f.opcode == PING {
      ProjectionsAppend(v.trace, [Wrote(Encoded(Create(PONG)))]);
    }
  }

  /**
    ... and a data frame goes to the assembler: it writes nothing, consumes no
    write result, never disconnects, and hands on exactly what the assembler
    dispatches.
  */
  lemma ReceiveData(st: HybiState, f: Frame)
    requires !IsControl(f.opcode)
    ensures var r := Receive(st, f); var s := AssembleStep(st.slot, f);
      r.slot == s.slot
      && r.sock.pending == st.sock.pending
      && Deliveries(r.sock.trace) == Deliveries(st.sock.trace) + Wrap(Dispatched(s.out))
      && Writes(r.sock.trace) == Writes(st.sock.trace)
      && Disconnected !in r.sock.trace[|st.sock.trace|..]
  {
    var r := Receive(st, f);
    var v := st.sock;
    var s := AssembleStep(st.slot, f);
    if s.out.Some? {
      var d := HybiMessage(s.out.value);
      ProjectionsAppend(v.trace, [Delivered(d)]);
      assert r.sock.trace[|v.trace|..] == [Delivered(d)];
      assert Wrap([s.out.value]) == [d];
    } else {
      assert r.sock.trace[|v.trace|..] == [];
    }
  }

  /** Receiving `fs` leaves the slot and the deliveries the assembler makes of its data frames. */
  predicate AssemblesDataFrames(st: HybiState, fs: seq<Frame>)
  {
    var r := ReceiveAll(st, fs); var a := Assemble(st.slot, DataFrames(fs));
    r.slot == a.slot && Deliveries(r.sock.trace) == Deliveries(st.sock.trace) + Wrap(a.messages)
  }

  lemma ControlFrameSkipped(st: HybiState, fs: seq<Frame>)
    requires fs != [] && IsControl(fs[0].opcode)
    requires AssemblesDataFrames(Receive(st, fs[0]), fs[1..])
    ensures AssemblesDataFrames(st, fs)
  {
    ReceiveControl(st, fs[0]);
    assert DataFrames(fs) == DataFrames(fs[1..]);
  }

  lemma DataFrameAssembled(st: HybiState, fs: seq<Frame>)
    requires fs != [] && !IsControl(fs[0].opcode)
    requires AssemblesDataFrames(Receive(st, fs[0]), fs[1..])
    ensures AssemblesDataFrames(st, fs)
  {
    var f := fs[0];
    var st1 := Receive(st, f);
    var r := ReceiveAll(st1, fs[1..]);
    var s := AssembleStep(st.slot, f);
    var ds := DataFrames(fs[1..]);
    var rest := Assemble(s.slot, ds);
    ReceiveData(st, f);
    DataFramesCons(fs);
    AssembleCons(st.slot, f, ds);
    DeliveriesChain(Deliveries(st.sock.trace), Dispatched(s.out), rest.messages,
                    Deliveries(st1.sock.trace), Deliveries(r.sock.trace));
  }

  lemma DeliveriesChain(d0: seq<Dispatch>, out: seq<Message>, rest: seq<Message>,
                        d1: seq<Dispatch>, d2: seq<Dispatch>)
    requires d1 == d0 + Wrap(out) && d2 == d1 + Wrap(rest)
    ensures d2 == d0 + Wrap(out + rest)
  {
    WrapAppend(out, rest);
    ConcatAssoc(d0, Wrap(out), Wrap(rest));
  }

  lemma DataFramesCons(fs: seq<Frame>)
    requires fs != [] && !IsControl(fs[0].opcode)
    ensures DataFrames(fs) == [fs[0]] + DataFrames(fs[1..])
  {
  }

  /**
    Control frames interleaved with the fragments of a message do not affect
    assembly: after any sequence of frames, the open message and the messages
    handed to `onMessage` are those the assembler makes of the data frames
    alone.
  */
  lemma {:induction false} ReceiveAllAssembles(st: HybiState, fs: seq<Frame>)
    ensures var r := ReceiveAll(st, fs); var a := Assemble(st.slot, DataFrames(fs));
      r.slot == a.slot && Deliveries(r.sock.trace) == Deliveries(st.sock.trace) + Wrap(a.messages)
    decreases |fs|
  {
    if fs == [] {
      assert Wrap([]) == [];
    } else {
      ReceiveAllAssembles(Receive(st, fs[0]), fs[1..]);
      if IsControl(fs[0].opcode) {
        ControlFrameSkipped(st, fs);
      } else {
        DataFrameAssembled(st, fs);
      }
    }
  }

  /** The writes a sequence of received frames causes are the control replies, in order. */
  lemma {:induction false} ReceiveAllWrites(st: HybiState, fs: seq<Frame>)
    ensures Writes(ReceiveAll(st, fs).sock.trace) == Writes(st.sock.trace) + Replies(fs)
    decreases |fs|
  {
    if fs != [] {
      var f := fs[0];
      var st1 := Receive(st, f);
      ReceiveAllWrites(st1, fs[1..]);
      if IsControl(f.opcode) {
        ReceiveControl(st, f);
      } else {
        ReceiveData(st, f);
        assert ReplyTo(f) == [];
      }
      assert Writes(ReceiveAll(st, fs).sock.trace)
        == (Writes(st.sock.trace) + ReplyTo(f)) + Replies(fs[1..]);
    }
  }
}
