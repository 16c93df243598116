/** HTTP messages as the proxy holds them: objects with replaceable parts and
    one-shot bodies. */
module Http {
  import opened Text

  /** Header lines by canonical name. */
  type Header = map<string, seq<string>>

  datatype Url = Url(scheme: string, host: string, path: string, query: string, text: string)

  /** Go's Header.Get: the first value, or "". */
  function Get(h: Header, key: string): string {
    if key in h && h[key] != [] then h[key][0] else ""
  }

  lemma GetFirst(h: Header, key: string, v: string, more: seq<string>)
    ensures Get(h[key := [v] + more], key) == v
    ensures key !in h ==> Get(h, key) == ""
  {
  }

  /** An io.ReadCloser: reading it to its end leaves it empty. A broken body
      ends in a read error. */
  class Body {
    var rest: string
    const broken: bool
    ghost var drains: nat  // how often it has been read to its end

    constructor (text: string, broken: bool)
      ensures rest == text && this.broken == broken && drains == 0
    {
      rest, this.broken, drains := text, broken, 0;
    }

    method ReadAll() returns (data: string, ok: bool)
      modifies this
      ensures rest == "" && data == old(rest) && ok == !broken && drains == old(drains) + 1
    {
      data, ok := rest, !broken;
      rest, drains := "", drains + 1;
    }
  }

  /** What a request is to a reader: its parts and the body still to be read. */
  datatype RequestView = RequestView(verb: string, header: Header, url: Url, body: string)

  class Request {
    var verb: string
    var header: Header
    var url: Url
    var body: Body
    var contentLength: int
    const host: string

    constructor (verb: string, header: Header, url: Url, body: Body, contentLength: int, host: string)
      ensures this.verb == verb && this.header == header && this.url == url && this.body == body
      ensures this.contentLength == contentLength && this.host == host
    {
      this.verb, this.header, this.url, this.body := verb, header, url, body;
      this.contentLength, this.host := contentLength, host;
    }

    function View(): RequestView
      reads this, body
    {
      RequestView(verb, header, url, body.rest)
    }
  }

  datatype ResponseView = ResponseView(status: int, header: Header, body: string)

  /** A response; its body is null after a failed rebuild. */
  class Response {
    const status: int
    const request: Request
    var header: Header
    var body: Body?
    var contentLength: int
    var close: bool

    constructor (status: int, request: Request, header: Header, body: Body, contentLength: int)
      ensures this.status == status && this.request == request && this.header == header
      ensures this.body == body && this.contentLength == contentLength && !close
    {
      this.status, this.request, this.header, this.body := status, request, header, body;
      this.contentLength, close := contentLength, false;
    }

    function View(): ResponseView
      requires body != null
      reads this, body
    {
      ResponseView(status, header, body.rest)
    }
  }

  /** A parsed message, and whether its body could be read to its end. */
  datatype Parsed<V> = Parsed(view: V, complete: bool)

  /** The libraries: message dump and parse, the redirect target of a response,
      and DSL evaluation. A None is the library's error. */
  datatype Library = Library(
    dumpRequest: RequestView -> Option<string>,
    readRequest: string -> Option<Parsed<RequestView>>,
    dumpResponse: ResponseView -> Option<string>,
    readResponse: string -> Option<Parsed<ResponseView>>,
    location: (Header, Url) -> Option<string>,  // the host a redirect leads to
    rewrite: (string, string) -> Option<string>,
    test: (string, Option<Env>) -> Option<bool>)

  datatype Value = Str(text: string) | Num(n: int)

  /** The variables of a filter expression. */
  type Env = map<string, Value>

  /** httputil.DumpRequest with the body: reads it, and puts a copy back. */
  method DumpRequest(lib: Library, req: Request) returns (dump: Option<string>)
    modifies req`body, req.body
    ensures !old(req.body.broken) ==>
              req.View() == old(req.View()) && dump == lib.dumpRequest(old(req.View())) &&
              !req.body.broken && fresh(req.body)
    ensures old(req.body.broken) ==> dump == None && req.body == old(req.body)
  {
    var text, ok := req.body.ReadAll();
    if !ok {
      return None;
    }
    req.body := new Body(text, false);
    dump := lib.dumpRequest(req.View());
  }

  method DumpResponse(lib: Library, resp: Response) returns (dump: Option<string>)
    requires resp.body != null
    modifies resp`body, resp.body
    ensures resp.body != null
    ensures !old(resp.body.broken) ==>
              resp.View() == old(resp.View()) && dump == lib.dumpResponse(old(resp.View())) &&
              !resp.body.broken && fresh(resp.body)
    ensures old(resp.body.broken) ==> dump == None && resp.body == old(resp.body)
  {
    var text, ok := resp.body.ReadAll();
    if !ok {
      return None;
    }
    resp.body := new Body(text, false);
    dump := lib.dumpResponse(resp.View());
  }
}
