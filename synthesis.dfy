/** The synthesis endpoint as seen by the batch: the request it is sent and
    the answer it gives back. */
module Synthesis {

  newtype Byte = x: int | 0 <= x < 256

  type Bytes = seq<Byte>

  /** The only status code that counts as a successful synthesis. */
  const StatusOk: int := 200

  /** One request to the synthesis endpoint: API key, speaker and text. */
  datatype SynthesisCall = SynthesisCall(key: string, speaker: string, text: string)

  /** What a request yields: an HTTP response with its status code and full
      body, or a transport-level failure (connection, DNS, timeout, ...). */
  datatype Response = Http(status: int, content: Bytes) | TransportError(message: string)

  predicate Succeeded(r: Response)
  {
    r.Http? && r.status == StatusOk
  }
}
