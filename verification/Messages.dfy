/**
 Request and response messages (libs/MessageBroker/include/MessageBroker/Message.hpp,
 libs/MessageBroker/include/MessageBroker/MessageHelper.hpp). Serialisation is foreign code and is
 taken to deliver the message that was sent. A default-constructed response is what protobuf makes
 it: every field zero or empty, and the zero of the result type is Success.
 */
module Messages {
  datatype Header = Header(id: nat, sequence: nat)

  datatype Message = Message(header: Header, payload: string)

  datatype ResultCode = Success | UnsupportedRequest | InvalidMessage | InvalidPayload | Error

  datatype Response = Response(header: Header, result: ResultCode, error: string, payload: string)

  const DEFAULT_RESPONSE := Response(Header(0, 0), Success, "", "")

  /** `referTo`: the response gets the header of the message it answers. */
  function ReferTo(response: Response, message: Message): Response {
    response.(header := message.header)
  }

  function ResultName(result: ResultCode): string {
    match result
    case Success => "Success"
    case UnsupportedRequest => "UnsupportedRequest"
    case InvalidMessage => "InvalidMessage"
    case InvalidPayload => "InvalidPayload"
    case Error => "Error"
  }

  function CreateResponse(message: Message): Response {
    ReferTo(DEFAULT_RESPONSE, message)
  }

  /** A JSON object with the name of the result. */
  function Reason(result: ResultCode): string {
    "{\"reason\":\"" + ResultName(result) + "\"}"
  }

  /** The reason is passed in the place of the payload, so the error of an error response is the empty value of JSON. */
  function CreateErrorResponse(message: Message, result: ResultCode): Response {
    ReferTo(
      DEFAULT_RESPONSE.(result := result, error := if result == Success then "" else "null", payload := Reason(result)),
      message)
  }

  const UNSUPPORTED_REASON := "{\"reason\":\"UnsupportedRequest\"}"

  /** What a requester gets that nobody handles. */
  lemma UnsupportedResponse(message: Message)
    ensures CreateErrorResponse(message, UnsupportedRequest)
         == Response(message.header, UnsupportedRequest, "null", UNSUPPORTED_REASON)
  {
    assert Reason(UnsupportedRequest) == UNSUPPORTED_REASON;
  }
}
