/** The response side of net/http as handlers use it, and internal/server/access.go's recorder. */
module Http {
  import opened Wrappers
  import opened Wording

  type Headers = map<HeaderName, HeaderValue>

  /** The JSON bodies the service writes; an error names a field and a reason only when there is one. */
  datatype Body = StatusBody(status: State) | ErrorBody(error: Problem, detail: Option<(Field, Why)>)

  /** What the client gets: one status, the headers as they stood then, and the bodies written. */
  datatype Response = Response(status: int, headers: Headers, body: seq<Body>)

  function Json(status: int, headers: Headers, body: Body): Response {
    Response(status, headers[ContentType := JsonUtf8], [body])
  }

  class ResponseWriter {
    var header: Headers
    /** Every status header written; the client sees the first. */
    var codes: seq<int>
    var sent: Headers
    var body: seq<Body>

    constructor ()
      ensures Unanswered()
    {
      header, codes, sent, body := map[], [], map[], [];
    }

    predicate Unanswered()
      reads this
    {
      header == map[] && codes == [] && body == []
    }

    /** The client was sent exactly this, under exactly one status header. */
    predicate Answered(r: Response)
      reads this
    {
      codes == [r.status] && sent == r.headers && body == r.body
    }

    method WriteHeader(status: int)
      modifies this
      ensures header == old(header) && body == old(body) && codes == old(codes) + [status]
      ensures sent == if old(codes) == [] then header else old(sent)
    {
      if codes == [] {
        sent := header;
      }
      codes := codes + [status];
    }

    /** A body without a status sends 200 first. */
    method Write(b: Body)
      modifies this
      ensures header == old(header) && body == old(body) + [b]
      ensures codes == if old(codes) == [] then [200] else old(codes)
      ensures sent == if old(codes) == [] then header else old(sent)
    {
      if codes == [] {
        WriteHeader(200);
      }
      body := body + [b];
    }
  }

  /** A response writer that knows what it answered; a status of 0 means nothing yet. */
  class Recorder {
    const inner: ResponseWriter
    var status: int

    constructor (inner: ResponseWriter)
      ensures this.inner == inner && status == 0
    {
      this.inner := inner;
      this.status := 0;
    }

    predicate Fresh()
      reads this, inner
    {
      inner.Unanswered() && status == 0
    }

    /** What the recorder holds is what the client saw, and is not the zero it started from. */
    predicate Recorded(r: Response)
      reads this, inner
    {
      inner.Answered(r) && status == r.status != 0
    }

    method SetHeader(key: HeaderName, value: HeaderValue)
      modifies inner
      ensures inner.header == old(inner.header)[key := value]
      ensures inner.codes == old(inner.codes) && inner.sent == old(inner.sent) && inner.body == old(inner.body)
    {
      inner.header := inner.header[key := value];
    }

    method WriteHeader(status: int)
      modifies this, inner
      ensures this.status == status
      ensures inner.header == old(inner.header) && inner.body == old(inner.body)
      ensures inner.codes == old(inner.codes) + [status]
      ensures inner.sent == if old(inner.codes) == [] then inner.header else old(inner.sent)
    {
      this.status := status;
      inner.WriteHeader(status);
    }

    method Write(b: Body)
      modifies this, inner
      ensures status == if old(status) == 0 then 200 else old(status)
      ensures inner.header == old(inner.header) && inner.body == old(inner.body) + [b]
      ensures inner.codes == if old(inner.codes) == [] then [200] else old(inner.codes)
      ensures inner.sent == if old(inner.codes) == [] then inner.header else old(inner.sent)
    {
      if status == 0 {
        status := 200;
      }
      inner.Write(b);
    }

    /** `writeJSON`: the headers set so far, one status, one body. */
    method WriteJson(status: int, body: Body)
      requires inner.codes == [] && inner.body == [] && status != 0
      modifies this, inner
      ensures Recorded(Json(status, old(inner.header), body))
    {
      SetHeader(ContentType, JsonUtf8);
      WriteHeader(status);
      Write(body);
    }
  }
}
