/**
  A connection of the Hixie or the Hybi dialect over one transport, and the
  factory that builds one from the first bytes a peer sends.
*/
module Connections {
  import opened Wrappers
  import opened Frames
  import opened Headers
  import opened Collaborators
  import opened Handshake
  import opened Factory
  import opened Transport
  import opened Sending
  import opened Assembler
  import opened Reception

  class Connection {
    const socket: Socket
    const codecs: Codecs
    const dialect: Dialect
    /** The client's raw initial bytes; only the Hixie handshake reads them. */
    const clientHandshake: string
    var headers: HeaderMap
    var cookies: map<string, string>
    /** The Hybi message under assembly; a Hixie connection never fills it. */
    var openMessage: Option<Message>

    ghost predicate Valid()
      reads this
    {
      dialect != Flash
      && (dialect == Hixie ==> openMessage == None)
      && SlotOk(openMessage)
    }

    /** The handshake response this connection writes. */
    function Response(): string
      reads this
    {
      if dialect == Hybi then HybiHandshake(codecs, headers)
      else HixieHandshake(codecs, headers, clientHandshake)
    }

    function State(): HybiState
      reads this, socket
    {
      HybiState(openMessage, socket.View())
    }

    /**
      Stores the headers, derives the cookies, and writes the handshake
      response before any frame is read. A list-valued `Cookie` header leaves
      the cookies at their initial, empty value.
    */
    constructor (socket: Socket, codecs: Codecs, dialect: Dialect, headers: HeaderMap, clientHandshake: string)
      requires dialect != Flash
      modifies socket
      ensures Valid()
      ensures this.socket == socket && this.codecs == codecs && this.dialect == dialect
      ensures this.clientHandshake == clientHandshake && this.headers == headers
      ensures cookies == if "Cookie" in headers && headers["Cookie"].Str?
                         then codecs.cookieParse(headers["Cookie"].text) else map[]
      ensures openMessage == None
      ensures socket.View() == Written(old(socket.View()), Raw(Response()))
    {
      this.socket := socket;
      this.codecs := codecs;
      this.dialect := dialect;
      this.clientHandshake := clientHandshake;
      this.headers := map[];
      this.cookies := map[];
      this.openMessage := None;
      new;
      SetHeaders(headers);
      SendHandshakeResponse();
    }

    /**
      Replaces the headers. A string `Cookie` header is parsed, a missing one
      empties the cookies, and a list-valued one leaves them as they were.
    */
    method SetHeaders(hs: HeaderMap)
      modifies this`headers, this`cookies
      ensures headers == hs
      ensures "Cookie" in hs && hs["Cookie"].List? ==> cookies == old(cookies)
      ensures "Cookie" in hs && hs["Cookie"].Str? ==> cookies == codecs.cookieParse(hs["Cookie"].text)
      ensures "Cookie" !in hs ==> cookies == map[]
    {
      headers := hs;
      if "Cookie" in headers && headers["Cookie"].List? {
        // the array case assigns a field other than the cookies
      } else if "Cookie" in headers {
        cookies := codecs.cookieParse(headers["Cookie"].text);
      } else {
        cookies := map[];
      }
    }

    /** The cookies as the constructor and `SetHeaders` left them. */
    function GetCookies(): (c: map<string, string>)
      reads this
      ensures c == cookies
    {
      cookies
    }

    /** The request path, null when the request line gave none. */
    function GetUriRequested(): (r: Option<HeaderValue>)
      reads this
      ensures r.Some? <==> "GET" in headers
      ensures r.Some? ==> r.value == headers["GET"]
    {
      Lookup(headers, "GET")
    }

    /** The `Admin-Key` header, null when it is absent. */
    function GetAdminKey(): (r: Option<HeaderValue>)
      reads this
      ensures r.Some? <==> "Admin-Key" in headers
      ensures r.Some? ==> r.value == headers["Admin-Key"]
    {
      Lookup(headers, "Admin-Key")
    }

    method SendHandshakeResponse()
      requires dialect != Flash
      modifies socket
      ensures socket.View() == Written(old(socket.View()), Raw(Response()))
    {
      var response;
      if dialect == Hybi {
        response := HybiHandshake(codecs, headers);
      } else {
        response := HixieHandshake(codecs, headers, clientHandshake);
      }
      var _ := socket.Write(Raw(response));
    }

    /** Writes the frame's encoding; false exactly when the transport reports failure. */
    method SendFrame(f: Frame) returns (ok: bool)
      modifies socket
      ensures SendOutcome(socket.View(), ok) == SendFrameSpec(old(socket.View()), f)
    {
      ok := socket.Write(Encoded(f));
    }

    /**
      Writes the message's frames in order and gives up at the first failed
      write; true exactly when every write succeeded.
    */
    method SendMessage(msg: Message) returns (ok: bool)
      modifies socket
      ensures SendOutcome(socket.View(), ok) == SendAll(old(socket.View()), msg.frames)
      ensures ok <==> AllAnswered(old(socket.pending), |msg.frames|)
    {
      ghost var before := socket.View();
      SendAllStopsAtFirstFailure(before, msg.frames);
      var i := 0;
      while i < |msg.frames|
        invariant 0 <= i <= |msg.frames|
        invariant SendAll(before, msg.frames) == SendAll(socket.View(), msg.frames[i..])
      {
        assert msg.frames[i..][0] == msg.frames[i] && msg.frames[i..][1..] == msg.frames[i + 1..];
        var sent := SendFrame(msg.frames[i]);
        if !sent {
          return false;
        }
        i := i + 1;
      }
      ok := true;
    }

    /** A Hybi connection sends a string as the message the message factory builds from it. */
    method SendString(text: string) returns (ok: bool)
      requires dialect == Hybi
      modifies socket
      ensures SendOutcome(socket.View(), ok) == SendAll(old(socket.View()), codecs.createMessage(text).frames)
    {
      ok := SendMessage(codecs.createMessage(text));
    }

    /**
      Takes one data frame: appends it to the open, unfinalised message or
      starts a new one, and hands the message to `onMessage` once it is
      finalised, emptying the slot.
    */
    method ProcessMessageFrame(f: Frame)
      requires Valid() && dialect == Hybi
      modifies this`openMessage, socket
      ensures Valid()
      ensures openMessage == AssembleStep(old(openMessage), f).slot
      ensures socket.View() == Deliver(old(socket.View()), AssembleStep(old(openMessage), f).out)
    {
      StepPreservesSlot(openMessage, f);
      if openMessage.Some? && !openMessage.value.finalised {
        openMessage := Some(TakeFrame(openMessage.value, f));
      } else {
        openMessage := Some(FromFrame(f));
      }
      if openMessage.Some? && openMessage.value.finalised {
        socket.OnMessage(HybiMessage(openMessage.value));
        openMessage := None;
      }
    }

    /** Answers Close with Close and a disconnect request, Ping with Pong; ignores the rest. */
    method ProcessControlFrame(f: Frame)
      requires dialect == Hybi
      modifies socket
      ensures socket.View() == Control(old(socket.View()), f)
    {
      if f.opcode == CLOSE {
        var _ := SendFrame(Create(CLOSE));
        socket.Disconnect();
      } else if f.opcode == PING {
        var _ := SendFrame(Create(PONG));
      }
    }

    /**
      Hybi: decodes one frame and routes it to control or to message
      processing. Hixie: the data is one complete message, handed straight on.
    */
    method ReadFrame(data: string)
      requires Valid()
      modifies this`openMessage, socket
      ensures Valid()
      ensures dialect == Hybi ==> State() == Receive(old(State()), codecs.decode(data))
      ensures dialect == Hixie ==> openMessage == old(openMessage)
      ensures dialect == Hixie ==> socket.View() == Logged(old(socket.View()), Delivered(HixieMessage(data)))
    {
      if dialect == Hybi {
        var frame := codecs.decode(data);
        if IsControl(frame.opcode) {
          ProcessControlFrame(frame);
        } else {
          ProcessMessageFrame(frame);
        }
      } else {
        socket.OnMessage(HixieMessage(data));
      }
    }

    /** Hybi writes a Close frame and then closes; Hixie only closes. */
    method Disconnect()
      requires Valid()
      modifies socket
      ensures dialect == Hybi ==> socket.View() == Logged(Written(old(socket.View()), Encoded(Create(CLOSE))), Closed)
      ensures dialect == Hixie ==> socket.View() == Logged(old(socket.View()), Closed)
    {
      if dialect == Hybi {
        var _ := SendFrame(Create(CLOSE));
      }
      socket.Close();
    }
  }

  /**
    `WebSocketConnectionFactory::fromSocketData`: tokenizes the headers, picks
    the dialect, and builds a Hixie or Hybi connection, which writes its
    handshake response. A Flash peer gets no connection here.
  */
  method FromSocketData(socket: Socket, codecs: Codecs, data: string) returns (dialect: Dialect, conn: Connection?)
    modifies socket
    ensures dialect == Select(codecs.parseHeaders(data), data)
    ensures conn == null <==> dialect == Flash
    ensures dialect == Flash ==> socket.View() == old(socket.View())
    ensures conn != null ==> fresh(conn) && conn.Valid() && conn.socket == socket
    ensures conn != null ==> conn.dialect == dialect && conn.headers == codecs.parseHeaders(data)
    ensures conn != null ==> conn.openMessage == None && conn.codecs == codecs
    ensures conn != null ==> conn.cookies == if "Cookie" in conn.headers && conn.headers["Cookie"].Str?
                                             then codecs.cookieParse(conn.headers["Cookie"].text) else map[]
    ensures conn != null && dialect == Hixie ==> conn.clientHandshake == data
    ensures conn != null ==> socket.View() == Written(old(socket.View()), Raw(conn.Response()))
  {
    var headers := codecs.parseHeaders(data);
    dialect := Select(headers, data);
    if dialect == Hixie {
      conn := new Connection(socket, codecs, Hixie, headers, data);
    } else if dialect == Flash {
      conn := null;
    } else {
      conn := new Connection(socket, codecs, Hybi, headers, "");
    }
  }
}
