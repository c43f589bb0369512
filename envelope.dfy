/**
 * The gateway envelope: the listing endpoints may answer either with the payload itself
 * or with an object whose `body` key carries the payload, possibly as a JSON-encoded
 * string. `fetch_georegions`, `fetch_data_centers` and `fetch_services` unwrap their
 * response with the same three-way case split, modelled once as Unwrap.
 */
module Envelope {
  import opened Data

  /** `json.loads`, a foreign parser: an uninterpreted function from text to a value. */
  type Parser = string -> Value

  /** The response is a dict that has a `body` key. */
  predicate IsEnvelope(response: Value) {
    response.JObj? && "body" in response.fields
  }

  /**
   * The unwrapped payload of a listing response. Anything that is not an envelope is
   * its own payload.
   */
  function Unwrap(parse: Parser, response: Value): (payload: Value)
    ensures !IsEnvelope(response) ==> payload == response
  {
    if IsEnvelope(response) then
      var body := response.fields["body"];
      if body.JStr? then parse(body.s) else body
    else
      response
  }

  /** What a gateway sends: the payload serialized to text under `body`. */
  function Wrap(serialize: Value -> string, payload: Value): (response: Value)
    ensures IsEnvelope(response)
  {
    JObj(map["body" := JStr(serialize(payload))])
  }

  /** The three cases of the unwrapping. */
  lemma UnwrapCases(parse: Parser, response: Value)
    ensures IsEnvelope(response) && response.fields["body"].JStr? ==>
              Unwrap(parse, response) == parse(response.fields["body"].s)
    ensures IsEnvelope(response) && !response.fields["body"].JStr? ==>
              Unwrap(parse, response) == response.fields["body"]
    ensures !IsEnvelope(response) ==> Unwrap(parse, response) == response
  {
  }

  /** Unwrapping undoes a gateway's wrapping whenever the parser reads back what was serialized. */
  lemma UnwrapWrap(parse: Parser, serialize: Value -> string, payload: Value)
    requires parse(serialize(payload)) == payload
    ensures Unwrap(parse, Wrap(serialize, payload)) == payload
  {
  }

  /**
   * A payload placed under `body` as a decoded value comes back as is, unless it is
   * a string: a string body is always handed to the parser.
   */
  lemma UnwrapObjectBody(parse: Parser, payload: Value)
    ensures Unwrap(parse, JObj(map["body" := payload])) ==
              if payload.JStr? then parse(payload.s) else payload
  {
  }

  /** Unwrapping again changes nothing once the result is no longer an envelope. */
  lemma UnwrapIdempotent(parse: Parser, response: Value)
    requires !IsEnvelope(Unwrap(parse, response))
    ensures Unwrap(parse, Unwrap(parse, response)) == Unwrap(parse, response)
  {
  }

  /** `{"body": "[1,2,3]"}` gives the list the parser reads from the text, not the text. */
  lemma UnwrapStringBodyExample(parse: Parser)
    requires parse("[1,2,3]") == JArr([JNum(1.0), JNum(2.0), JNum(3.0)])
    ensures Unwrap(parse, JObj(map["body" := JStr("[1,2,3]")])) ==
              JArr([JNum(1.0), JNum(2.0), JNum(3.0)])
  {
  }
}
