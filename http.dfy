/** The parts of the servlet API the download servlets touch: a response whose
    status, headers and body are set step by step, and an input stream that
    must be closed. */
module Http {
  import opened Wrappers

  newtype byte = x: int | 0 <= x < 256

  const SC_OK := 200
  const SC_NOT_FOUND := 404

  /** A snapshot of everything a servlet can observe having set on a response. */
  datatype ResponseState = ResponseState(
    status: int,
    errorSent: bool,
    contentLength: Option<int>,
    contentType: Option<string>,
    headers: map<string, string>,
    body: seq<byte>)

  const FreshResponse := ResponseState(SC_OK, false, None, None, map[], [])

  class Response {
    var status: int
    var errorSent: bool
    var contentLength: Option<int>
    var contentType: Option<string>
    var headers: map<string, string>
    var body: seq<byte>

    function State(): ResponseState
      reads this
    {
      ResponseState(status, errorSent, contentLength, contentType, headers, body)
    }

    constructor ()
      ensures State() == FreshResponse
    {
      status, errorSent := SC_OK, false;
      contentLength, contentType := None, None;
      headers, body := map[], [];
    }

    /** HttpServletResponse.sendError(code). */
    method SendError(code: int)
      modifies this
      ensures State() == old(State()).(status := code, errorSent := true)
    {
      status, errorSent := code, true;
    }

    method SetContentLength(length: int)
      modifies this
      ensures State() == old(State()).(contentLength := Some(length))
    {
      contentLength := Some(length);
    }

    method SetContentType(mimeType: string)
      modifies this
      ensures State() == old(State()).(contentType := Some(mimeType))
    {
      contentType := Some(mimeType);
    }

    method SetHeader(name: string, value: string)
      modifies this
      ensures State() == old(State()).(headers := old(headers)[name := value])
    {
      headers := headers[name := value];
    }

    /** Writes bytes to the response's output stream. */
    method Write(bytes: seq<byte>)
      modifies this
      ensures State() == old(State()).(body := old(body) + bytes)
    {
      body := body + bytes;
    }
  }

  /** An input stream over a rendition's bytes. */
  class ByteSource {
    const data: seq<byte>
    var closed: bool

    constructor (data: seq<byte>)
      ensures this.data == data && !closed
    {
      this.data := data;
      closed := false;
    }

    method Close()
      modifies this
      ensures closed
    {
      closed := true;
    }
  }
}
