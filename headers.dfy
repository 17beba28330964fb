/** The parsed request header map and PHP's reading of its entries. */
module Headers {
  import opened Wrappers

  /** A header value: a string, or an array when the header layer produced several. */
  datatype HeaderValue = Str(text: string) | List(items: seq<string>)

  type HeaderMap = map<string, HeaderValue>

  /** `isset($h[$key]) ? $h[$key] : null` */
  function Lookup(headers: HeaderMap, key: string): Option<HeaderValue>
  {
    if key in headers then Some(headers[key]) else None
  }

  /** A value interpolated into a PHP string: null is empty, an array reads "Array". */
  function Interpolate(v: Option<HeaderValue>): string
  {
    match v
    case None => ""
    case Some(Str(s)) => s
    case Some(List(_)) => "Array"
  }
}
