/**
  The transport the connections write to and report to, as a recording stub:
  every call is appended to one ordered trace, and `write` answers from a
  script of results given up front (true once the script runs out).
*/
module Transport {
  import opened Wrappers
  import opened Frames

  /** What a write hands the transport: raw handshake text, or an encoded frame. */
  datatype Wire = Raw(text: string) | Encoded(frame: Frame)

  /** What `onMessage` receives: an assembled Hybi message or a legacy Hixie message. */
  datatype Dispatch = HybiMessage(message: Message) | HixieMessage(data: string)

  datatype Event = Wrote(wire: Wire) | Delivered(dispatch: Dispatch) | Disconnected | Closed

  /** The observable state of a transport: its trace and the write results still to come. */
  datatype SocketView = SocketView(trace: seq<Event>, pending: seq<bool>)

  /** The result of the `i`-th write from now. */
  function Answer(pending: seq<bool>, i: nat): bool
  {
    i >= |pending| || pending[i]
  }

  function Consume(pending: seq<bool>): seq<bool>
  {
    if pending == [] then [] else pending[1..]
  }

  lemma AnswerConsume(pending: seq<bool>, i: nat)
    ensures Answer(Consume(pending), i) == Answer(pending, i + 1)
  {
  }

  /** The transport after one write. */
  function Written(v: SocketView, w: Wire): SocketView
  {
    SocketView(v.trace + [Wrote(w)], Consume(v.pending))
  }

  /** The transport after a call that is not a write. */
  function Logged(v: SocketView, e: Event): SocketView
  {
    v.(trace := v.trace + [e])
  }

  /** The writes of a trace, in order. */
  function Writes(t: seq<Event>): seq<Wire>
  {
    if t == [] then [] else (if t[0].Wrote? then [t[0].wire] else []) + Writes(t[1..])
  }

  /** The `onMessage` calls of a trace, in order. */
  function Deliveries(t: seq<Event>): seq<Dispatch>
  {
    if t == [] then [] else (if t[0].Delivered? then [t[0].dispatch] else []) + Deliveries(t[1..])
  }

  lemma {:induction false} WritesAppend(a: seq<Event>, b: seq<Event>)
    ensures Writes(a + b) == Writes(a) + Writes(b)
  {
    if a == [] {
      assert a + b == b;
    } else {
      assert (a + b)[0] == a[0];
      assert (a + b)[1..] == a[1..] + b;
      WritesAppend(a[1..], b);
      ConcatAssoc(if a[0].Wrote? then [a[0].wire] else [], Writes(a[1..]), Writes(b));
    }
  }

  lemma {:induction false} DeliveriesAppend(a: seq<Event>, b: seq<Event>)
    ensures Deliveries(a + b) == Deliveries(a) + Deliveries(b)
  {
    if a == [] {
      assert a + b == b;
    } else {
      assert (a + b)[0] == a[0];
      assert (a + b)[1..] == a[1..] + b;
      DeliveriesAppend(a[1..], b);
      ConcatAssoc(if a[0].Delivered? then [a[0].dispatch] else [], Deliveries(a[1..]), Deliveries(b));
    }
  }

  lemma ProjectionsAppend(a: seq<Event>, b: seq<Event>)
    ensures Writes(a + b) == Writes(a) + Writes(b)
    ensures Deliveries(a + b) == Deliveries(a) + Deliveries(b)
  {
    WritesAppend(a, b);
    DeliveriesAppend(a, b);
  }

  class Socket {
    var trace: seq<Event>
    var pending: seq<bool>

    constructor (script: seq<bool>)
      ensures View() == SocketView([], script)
    {
      trace := [];
      pending := script;
    }

    function View(): SocketView
      reads this
    {
      SocketView(trace, pending)
    }

    /** Writes `w`; false when the transport reports failure. */
    method Write(w: Wire) returns (ok: bool)
      modifies this
      ensures ok == Answer(old(pending), 0)
      ensures View() == Written(old(View()), w)
    {
      ok := Answer(pending, 0);
      trace := trace + [Wrote(w)];
      pending := Consume(pending);
    }

    method OnMessage(d: Dispatch)
      modifies this
      ensures View() == Logged(old(View()), Delivered(d))
    {
      trace := trace + [Delivered(d)];
    }

    /** The transport-level teardown request. */
    method Disconnect()
      modifies this
      ensures View() == Logged(old(View()), Disconnected)
    {
      trace := trace + [Disconnected];
    }

    method Close()
      modifies this
      ensures View() == Logged(old(View()), Closed)
    {
      trace := trace + [Closed];
    }
  }
}
