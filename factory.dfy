/** The choice of dialect from the first bytes a peer sends. */
module Factory {
  import opened Wrappers
  import opened Headers

  datatype Dialect = Hixie | Flash | Hybi

  const HixieKeyHeader: string := "Sec-Websocket-Key1"
  const PolicyRequest: string := "<policy-file-request/>"

  /** `needle` occurs in `haystack` starting at offset `j`. */
  predicate OccursAt(haystack: string, needle: string, j: int)
  {
    0 <= j && j + |needle| <= |haystack| && haystack[j..j + |needle|] == needle
  }

  lemma OccursShift(haystack: string, needle: string)
    requires |haystack| > 0
    ensures forall j :: 1 <= j ==> (OccursAt(haystack, needle, j) <==> OccursAt(haystack[1..], needle, j - 1))
  {
    forall j | 1 <= j
      ensures OccursAt(haystack, needle, j) <==> OccursAt(haystack[1..], needle, j - 1)
    {
      if j + |needle| <= |haystack| {
        assert haystack[1..][j - 1..j - 1 + |needle|] == haystack[j..j + |needle|];
      }
    }
  }

  /** PHP's `strpos`: the offset of the first occurrence of `needle`, or false (None). */
  function StrPos(haystack: string, needle: string): (r: Option<nat>)
    ensures r.Some? ==> OccursAt(haystack, needle, r.value)
    ensures r.Some? ==> forall j :: 0 <= j < r.value ==> !OccursAt(haystack, needle, j)
    ensures r.None? ==> forall j :: !OccursAt(haystack, needle, j)
    decreases |haystack|
  {
    if |haystack| < |needle| then None
    else if haystack[..|needle|] == needle then Some(0)
    else
      OccursShift(haystack, needle);
      match StrPos(haystack[1..], needle)
      case None => None
      case Some(i) => Some(i + 1)
  }

  /**
    `WebSocketConnectionFactory::fromSocketData`: the legacy key header picks
    Hixie, a policy request at offset 0 picks Flash, and everything else is Hybi.
  */
  function Select(headers: HeaderMap, data: string): Dialect
  {
    if HixieKeyHeader in headers then Hixie
    else if StrPos(data, PolicyRequest) == Some(0) then Flash
    else Hybi
  }

  /** The selection rule in full: each dialect exactly when its condition holds. */
  lemma SelectRule(headers: HeaderMap, data: string)
    ensures Select(headers, data) == Hixie <==> HixieKeyHeader in headers
    ensures Select(headers, data) == Flash <==> HixieKeyHeader !in headers && PolicyRequest <= data
    ensures Select(headers, data) == Hybi <==> HixieKeyHeader !in headers && !(PolicyRequest <= data)
  {
    if PolicyRequest <= data {
      assert OccursAt(data, PolicyRequest, 0);
    }
    if StrPos(data, PolicyRequest) == Some(0) {
      assert OccursAt(data, PolicyRequest, 0);
    }
  }
}
