/** The live-fixture feed, reduced to what the scanner sees of it: a list of
    records, or the empty list whenever the request did not yield one. */
module Feed {

  import opened Wrappers
  import opened Records

  /** A decoded JSON body; `response` is None when the key is absent. */
  datatype Body = Body(response: Option<seq<RawRecord>>)

  /** How one request ended: a transport error or timeout, or an HTTP answer
      whose body decoded (Some) or failed to decode (None). */
  datatype FetchOutcome = TransportError | Answered(status: int, body: Option<Body>)

  /** The records of one poll: the `response` list of a decoded 200 answer,
      and the empty list on every other outcome. */
  function LiveMatches(outcome: FetchOutcome): (r: seq<RawRecord>)
    ensures r != [] ==> outcome.Answered? && outcome.status == 200
    ensures (outcome.TransportError? || (outcome.Answered? && outcome.status != 200)) ==> r == []
    ensures (outcome.Answered? && outcome.status == 200 && outcome.body.Some?
             && outcome.body.value.response.Some?) ==> r == outcome.body.value.response.value
    ensures (outcome.Answered? && outcome.status == 200
             && (outcome.body.None? || outcome.body.value.response.None?)) ==> r == []
  {
    match outcome
    case TransportError => []
    case Answered(status, body) =>
      if status != 200 || body.None? then []
      else match body.value.response
        case None => []
        case Some(records) => records
  }
}
