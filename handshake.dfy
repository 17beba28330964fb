/** The handshake responses the Hybi and Hixie connections write on construction. */
module Handshake {
  import opened Wrappers
  import opened Headers
  import opened Collaborators

  /** The three lines both dialects' responses open with. */
  const StatusLines: string :=
    "HTTP/1.1 101 WebSocket Protocol Handshake\r\n" + "Upgrade: WebSocket\r\n" + "Connection: Upgrade\r\n"

  const AcceptField: string := "Sec-WebSocket-Accept: "
  const Crlf: string := "\r\n"

  function HybiResponse(token: string): string
  {
    StatusLines + AcceptField + token + Crlf + Crlf
  }

  /** The Hybi response is the status lines, the accept field holding the token, and a blank line. */
  lemma HybiResponseLayout(token: string)
    ensures var r := HybiResponse(token); var n := |StatusLines + AcceptField|;
      |r| == n + |token| + 4
      && r[..|StatusLines|] == StatusLines
      && r[|StatusLines|..n] == AcceptField
      && r[n..n + |token|] == token
      && r[n + |token|..] == "\r\n\r\n"
  {
    var r := HybiResponse(token);
    var n := |StatusLines + AcceptField|;
    assert r == (StatusLines + AcceptField) + token + "\r\n\r\n";
    assert (StatusLines + AcceptField)[..|StatusLines|] == StatusLines;
  }

  /** Distinct tokens give distinct responses: the token can be read back. */
  lemma HybiResponseInjective(a: string, b: string)
    requires HybiResponse(a) == HybiResponse(b)
    ensures a == b
  {
    HybiResponseLayout(a);
    HybiResponseLayout(b);
  }

  function HixieResponse(origin: string, host: string, location: string, digest: string): string
  {
    StatusLines
    + OriginField + origin + Crlf
    + LocationField + host + location + Crlf
    + Crlf + digest
  }

  const OriginField: string := "Sec-WebSocket-Origin: "
  const LocationField: string := "Sec-WebSocket-Location: ws://"

  /** Where each piece of a left-nested concatenation of nine pieces sits. */
  lemma NinePieces(p0: string, p1: string, p2: string, p3: string, p4: string,
                   p5: string, p6: string, p7: string, p8: string)
    ensures var r := p0 + p1 + p2 + p3 + p4 + p5 + p6 + p7 + p8;
      var k1 := |p0|; var k2 := k1 + |p1|; var k3 := k2 + |p2|; var k4 := k3 + |p3|;
      var k5 := k4 + |p4|; var k6 := k5 + |p5|; var k7 := k6 + |p6|; var k8 := k7 + |p7|;
      |r| == k8 + |p8|
      && r[..k1] == p0 && r[k1..k2] == p1 && r[k2..k3] == p2 && r[k3..k4] == p3
      && r[k4..k5] == p4 && r[k5..k6] == p5 && r[k6..k7] == p6 && r[k7..k8] == p7 && r[k8..] == p8
  {
  }

  /**
    The Hixie response is the same status lines, then the origin line, then
    the location line naming the host and the path, then a blank line, and
    the digest right after it with no line break.
  */
  lemma HixieResponseLayout(origin: string, host: string, location: string, digest: string)
    ensures var r := HixieResponse(origin, host, location, digest);
      var o := |StatusLines| + |OriginField|;
      var l := o + |origin| + 2;
      var h := l + |LocationField|;
      var d := h + |host| + |location| + 4;
      |r| == d + |digest|
      && r[..|StatusLines|] == StatusLines
      && r[|StatusLines|..o] == OriginField
      && r[o..o + |origin|] == origin
      && r[o + |origin|..l] == Crlf
      && r[l..h] == LocationField
      && r[h..h + |host|] == host
      && r[h + |host|..h + |host| + |location|] == location
      && r[h + |host| + |location|..d] == "\r\n\r\n"
      && r[d..] == digest
  {
    NinePieces(StatusLines, OriginField, origin, Crlf, LocationField, host, location, Crlf + Crlf, digest);
    assert HixieResponse(origin, host, location, digest)
      == StatusLines + OriginField + origin + Crlf + LocationField + host + location + (Crlf + Crlf) + digest;
  }

  /**
    PHP's `substr($s, $offset)` without a length: a negative offset counts
    from the end and is clamped to the start; an offset past the end gives "".
  */
  function SubstrFrom(s: string, offset: int): string
  {
    var start := if offset >= 0 then offset else if |s| + offset < 0 then 0 else |s| + offset;
    if start > |s| then "" else s[start..]
  }

  /** `substr($h, -8)`: the key material trailing the client's Hixie handshake. */
  function LastEight(h: string): string
  {
    SubstrFrom(h, -8)
  }

  /** The trailer is the last min(8, |h|) characters of `h`. */
  lemma LastEightIsTrailer(h: string)
    ensures var t := LastEight(h);
      |t| == (if |h| < 8 then |h| else 8) && h == h[..|h| - |t|] + t
  {
  }

  /** The Hybi response for a header map: the accept token of `Sec-Websocket-Key`, or of null. */
  function HybiHandshake(codecs: Codecs, headers: HeaderMap): string
  {
    HybiResponse(codecs.hybiAccept(Lookup(headers, "Sec-Websocket-Key")))
  }

  /**
    The Hixie response for a header map and the client's raw handshake: the
    origin, host and path interpolated, then the digest of both keys and the trailer.
  */
  function HixieHandshake(codecs: Codecs, headers: HeaderMap, clientHandshake: string): string
  {
    HixieResponse(
      Interpolate(Lookup(headers, "Origin")),
      Interpolate(Lookup(headers, "Host")),
      Interpolate(Lookup(headers, "GET")),
      codecs.hixieDigest(Lookup(headers, "Sec-Websocket-Key1"), Lookup(headers, "Sec-Websocket-Key2"),
                         LastEight(clientHandshake)))
  }
}
