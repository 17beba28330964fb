/**
  The helper routines whose bodies are not part of this model, held as
  uninterpreted total functions: header tokenizing, cookie parsing, the two
  handshake digests, frame decoding and the building of an outbound message.
*/
module Collaborators {
  import opened Wrappers
  import opened Frames
  import opened Headers

  datatype Codecs = Codecs(
    parseHeaders: string -> HeaderMap,
    cookieParse: string -> map<string, string>,
    hybiAccept: Option<HeaderValue> -> string,
    hixieDigest: (Option<HeaderValue>, Option<HeaderValue>, string) -> string,
    decode: string -> Frame,
    createMessage: string -> Message)
}
