/**
 * The parts of an HTTP message the streams use. The message class itself
 * is not part of this model: a header lookup gives the empty string for a
 * missing header, and the serialised headers and body are given as values.
 */
module HttpMessage {

  import opened Common

  /**
   * A body to send: octets, or a file-like source, written as the
   * successive results of its `read()` calls (the empty string, or running
   * out of results, meaning the end).
   */
  datatype Body = Octets(data: Bytes) | Source(chunks: seq<Bytes>)

  datatype Message = Message(
    requestMethod: string, uri: string, protocol: string,
    code: string, reason: string,
    headers: map<string, string>,
    /** The body length declared for sending; negative when unknown. */
    length: int,
    /** What `serialize_headers().read()` returns. */
    serializedHeaders: Bytes,
    /** What `serialize_body()` returns. */
    body: Body)

  /** The protocols both roles accept on a first line. */
  predicate KnownProtocol(p: string)
  {
    p == "HTTP/1.0" || p == "HTTP/1.1"
  }

  /** A message with nothing set yet. */
  const Blank: Message := Message("", "", "", "", "", map[], 0, [], Octets([]))

  function Get(m: Message, key: string): string
  {
    if key in m.headers then m.headers[key] else ""
  }

  function SetHeader(m: Message, key: string, value: string): (r: Message)
    ensures Get(r, key) == value
    ensures forall k :: k != key ==> Get(r, k) == Get(m, k)
  {
    m.(headers := m.headers[key := value])
  }

  function DeleteHeader(m: Message, key: string): (r: Message)
    ensures Get(r, key) == ""
    ensures forall k :: k != key ==> Get(r, k) == Get(m, k)
  {
    m.(headers := map k | k in m.headers && k != key :: m.headers[k])
  }

  /** The octets a source yields: its reads up to the first empty one. */
  function SourceBytes(chunks: seq<Bytes>): Bytes
  {
    if chunks == [] || chunks[0] == [] then [] else chunks[0] + SourceBytes(chunks[1..])
  }

  /** What one `read()` of a body returns. */
  function FirstRead(b: Body): Bytes
  {
    match b
    case Octets(d) => d
    case Source(chunks) => if chunks == [] then [] else chunks[0]
  }
}
