/** The structured data of a message: what the JSON log says of it. */
module Messages {
  import opened Text
  import opened Http

  datatype MessageData = MessageData(header: map<string, string>, body: string, raw: string)

  /** The header loop: every header, its values joined, over what was there. */
  method AddJoined(header: Header, before: map<string, string>) returns (m: map<string, string>)
    ensures m.Keys == before.Keys + header.Keys
    ensures forall key | key in m ::
              m[key] == if key in header then Join(header[key], ", ") else before[key]
  {
    m := before;
    var todo := header.Keys;
    while todo != {}
      invariant todo <= header.Keys
      invariant m.Keys == before.Keys + (header.Keys - todo)
      invariant forall key | key in m ::
                  m[key] == if key in header && key !in todo then Join(header[key], ", ") else before[key]
    {
      var key :| key in todo;
      m := m[key := Join(header[key], ", ")];
      todo := todo - {key};
    }
  }

  /** The entries a request's data has beside its headers. */
  function RequestLine(v: RequestView): map<string, string> {
    map["scheme" := v.url.scheme, "method" := v.verb, "path" := v.url.path, "host" := v.url.host]
  }

  /** The data of a request as it reads: a header's entry is its values, joined,
      also where it has the name of an entry of the request line. */
  function DataFor(lib: Library, v: RequestView): (r: Option<MessageData>)
    ensures r.None? <==> lib.dumpRequest(v).None?
    ensures r.Some? ==> forall key | key in v.header :: key in r.value.header && r.value.header[key] == Join(v.header[key], ", ")
  {
    match lib.dumpRequest(v)
    case None => None
    case Some(raw) =>
      Some(MessageData(
        RequestLine(v) + map key | key in v.header :: Join(v.header[key], ", "), v.body, raw))
  }

  /** The data of a request, entry by entry. */
  lemma DataSpelled(lib: Library, v: RequestView)
    requires DataFor(lib, v).Some?
    ensures var d := DataFor(lib, v).value;
            && d.body == v.body && lib.dumpRequest(v) == Some(d.raw)
            && d.header.Keys == {"scheme", "method", "path", "host"} + v.header.Keys
            && (forall key | key in v.header :: d.header[key] == Join(v.header[key], ", "))
            && ("scheme" !in v.header ==> d.header["scheme"] == v.url.scheme)
            && ("method" !in v.header ==> d.header["method"] == v.verb)
            && ("path" !in v.header ==> d.header["path"] == v.url.path)
            && ("host" !in v.header ==> d.header["host"] == v.url.host)
  {
    hide Join;
  }

  /** Extracting the data reads the body and puts it back: the request reads as
      before, for the dumps that follow. */
  method NewHttpRequestData(lib: Library, req: Request) returns (r: Option<MessageData>)
    modifies req`body, req.body
    ensures !old(req.body.broken) ==>
              req.View() == old(req.View()) && !req.body.broken && r == DataFor(lib, old(req.View()))
    ensures old(req.body.broken) ==> r == None
    ensures req.body == old(req.body) || fresh(req.body)
  {
    var header := RequestLine(req.View());
    header := AddJoined(req.header, header);
    var reqBody, ok := req.body.ReadAll();
    if !ok {
      return None;
    }
    req.body := new Body(reqBody, false);
    var reqdump := DumpRequest(lib, req);
    if reqdump.None? {
      return None;
    }
    assert header == RequestLine(req.View()) + map key | key in req.header :: Join(req.header[key], ", ");
    r := Some(MessageData(header, reqBody, reqdump.value));
  }

  /** A header name in Go's canonical form starts with no lower-case letter. */
  predicate Canonical(header: Header) {
    forall key | key in header :: key != "" && !('a' <= key[0] <= 'z')
  }

  /** With canonical header names no header hides the request line. */
  lemma RequestLineKept(lib: Library, v: RequestView)
    requires DataFor(lib, v).Some? && Canonical(v.header)
    ensures var h := DataFor(lib, v).value.header;
            h["method"] == v.verb && h["path"] == v.url.path && h["host"] == v.url.host && h["scheme"] == v.url.scheme
  {
    hide Join;
    assert "method"[0] == 'm' && "path"[0] == 'p' && "host"[0] == 'h' && "scheme"[0] == 's';
    assert "method" !in v.header && "path" !in v.header && "host" !in v.header && "scheme" !in v.header;
  }
}
