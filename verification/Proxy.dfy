/** The request and response modifiers: filter, rewrite, log. */
module Proxy {
  import opened Text
  import opened Http
  import opened Rewrite
  import opened Filters

  /** The bool a Match pointer points to. */
  class Verdict {
    var value: bool

    constructor (value: bool)
      ensures this.value == value
    {
      this.value := value;
    }
  }

  /** The user data of a session, whose verdict is shared by reference. */
  datatype Session = Session(id: string, matched: Verdict?, hasResponse: bool, host: string)

  /** A queued transaction: the logger's copy of the user data and its
      references to the messages. */
  datatype Queued = Queued(userdata: Session, request: Request, response: Response?)

  function Deref(v: Verdict?): Option<bool>
    reads v
  {
    if v == null then None else Some(v.value)
  }

  ghost function VerdictsOf(queue: seq<Queued>): (r: seq<Option<bool>>)
    reads set q | q in queue :: q.userdata.matched
    ensures |r| == |queue|
    ensures forall i | 0 <= i < |queue| :: r[i] == Deref(queue[i].userdata.matched)
  {
    if queue == [] then []
    else
      assert queue[0] in queue;
      [Deref(queue[0].userdata.matched)] + VerdictsOf(queue[1..])
  }

  /** Each filter was evaluated on the variables of the unchanged message; an
      evaluation error counts as false. */
  ghost predicate RequestTested(lib: Library, exprs: seq<string>, view: RequestView, results: seq<bool>) {
    |results| == |exprs| &&
    forall i | 0 <= i < |exprs| ::
      exists m: Option<Env> :: RequestVars(lib, view, m) && results[i] == (lib.test(exprs[i], m) == Some(true))
  }

  ghost predicate ResponseTested(lib: Library, exprs: seq<string>, view: ResponseView, length: int, results: seq<bool>) {
    |results| == |exprs| &&
    forall i | 0 <= i < |exprs| ::
      exists m: Env :: ResponseVars(lib, view, length, m) && results[i] == (lib.test(exprs[i], Some(m)) == Some(true))
  }

  /** A filter that holds of every environment passes, one that holds of none
      does not: the results are those of the filters, in their order. */
  lemma ConstantFilters(lib: Library, exprs: seq<string>, view: RequestView, results: seq<bool>, i: nat, v: bool)
    requires i < |exprs| && RequestTested(lib, exprs, view, results)
    requires forall m: Option<Env> :: (lib.test(exprs[i], m) == Some(true)) == v
    ensures results[i] == v
  {
  }

  lemma ConstantResponseFilters(lib: Library, exprs: seq<string>, view: ResponseView, length: int, results: seq<bool>, i: nat, v: bool)
    requires i < |exprs| && ResponseTested(lib, exprs, view, length, results)
    requires forall m: Option<Env> :: (lib.test(exprs[i], m) == Some(true)) == v
    ensures results[i] == v
  {
  }

  /** The request as it is sent and logged. */
  function Outgoing(lib: Library, exprs: seq<string>, view: RequestView): RequestView {
    var r := if exprs == [] then None else RewrittenRequest(lib, exprs, view);
    var v := if r.Some? then r.value.view else view;
    v.(header := v.header["Accept-Encoding" := [Debrotlied(Get(v.header, "Accept-Encoding"))]])
  }

  /** The header and the body of a response as it is returned and logged. */
  function Returned(lib: Library, exprs: seq<string>, view: ResponseView): (Header, Option<string>) {
    if exprs == [] then (view.header, Some(view.body)) else Replaced(lib, exprs, view)
  }

  /** Whatever match-replace did, "br" is not among the codings the outgoing
      request offers, and only that header differs from its result. */
  lemma OutgoingOffersNoBr(lib: Library, exprs: seq<string>, view: RequestView)
    ensures var out := Outgoing(lib, exprs, view);
            var r := if exprs == [] then None else RewrittenRequest(lib, exprs, view);
            var sent := if r.Some? then r.value.view else view;
            && "br" !in Codings(Get(out.header, "Accept-Encoding"))
            && out.verb == sent.verb && out.url == sent.url && out.body == sent.body
            && (forall key | key in sent.header && key != "Accept-Encoding" ::
                  key in out.header && out.header[key] == sent.header[key])
            && (forall key | key in out.header && key != "Accept-Encoding" :: key in sent.header)
  {
    var out := Outgoing(lib, exprs, view);
    var r := if exprs == [] then None else RewrittenRequest(lib, exprs, view);
    var sent := if r.Some? then r.value.view else view;
    RemovesExactlyBr(Get(sent.header, "Accept-Encoding"));
  }

  /** How a modifier handled its message: served the proxy's own page, left it
      to the library user's callback, or filtered and logged it. */
  datatype Handling = Hijacked | CalledBack | Logged

  /** What is returned: the response as filtered without expressions; the parse
      of the last text when every expression succeeds, without a body if that is
      incomplete; and the response as filtered when one fails. */
  lemma ReturnedIsRewritten(lib: Library, exprs: seq<string>, view: ResponseView)
    ensures exprs == [] ==> Returned(lib, exprs, view) == (view.header, Some(view.body))
    ensures exprs != [] ==>
              forall texts | Trace(lib, exprs, texts) && lib.dumpResponse(view) == Some(texts[0]) ::
                match lib.readResponse(texts[|exprs|])
                case None => Returned(lib, exprs, view) == (view.header, Some(view.body))
                case Some(p) => Returned(lib, exprs, view) == (p.view.header, if p.complete then Some(p.view.body) else None)
    ensures RewrittenResponse(lib, exprs, view).None? ==> Returned(lib, exprs, view) == (view.header, Some(view.body))
  {
    forall texts | Trace(lib, exprs, texts) {
      ParsedFromTrace(lib, exprs, texts);
    }
  }

  /** What is sent when every expression succeeds: the parse of the last text. */
  lemma OutgoingIsRewritten(lib: Library, exprs: seq<string>, view: RequestView, texts: seq<string>)
    requires exprs != [] && Trace(lib, exprs, texts) && lib.dumpRequest(view) == Some(texts[0])
    requires lib.readRequest(texts[|exprs|]).Some?
    ensures var out, parsed := Outgoing(lib, exprs, view), lib.readRequest(texts[|exprs|]).value.view;
            && out.verb == parsed.verb && out.url == parsed.url && out.body == parsed.body
            && out.header.Keys == parsed.header.Keys + {"Accept-Encoding"}
            && forall key | key in parsed.header && key != "Accept-Encoding" :: out.header[key] == parsed.header[key]
  {
    ParsedFromTrace(lib, exprs, texts);
  }

  /** stringsutil.EqualFoldAny. */
  predicate EqualFoldAny(s: string, others: seq<string>) {
    exists i | 0 <= i < |others| :: Lower(s) == Lower(others[i])
  }

  /** Equal but for the case of letters. */
  predicate SameFold(a: string, b: string) {
    |a| == |b| &&
    forall i | 0 <= i < |a| ::
      || a[i] == b[i]
      || ('A' <= a[i] <= 'Z' && b[i] == a[i] - 'A' + 'a')
      || ('A' <= b[i] <= 'Z' && a[i] == b[i] - 'A' + 'a')
  }

  lemma LowerSame(a: string, b: string)
    ensures Lower(a) == Lower(b) <==> SameFold(a, b)
  {
    if Lower(a) == Lower(b) {
      forall i | 0 <= i < |a|
        ensures a[i] == b[i] || ('A' <= a[i] <= 'Z' && b[i] == a[i] - 'A' + 'a') || ('A' <= b[i] <= 'Z' && a[i] == b[i] - 'A' + 'a')
      {
        assert Lower(a)[i] == Lower(b)[i];
      }
    }
  }

  class Proxy {
    const lib: Library
    const listenAddr: string
    const onRequest: bool   // a request callback is configured
    const onResponse: bool
    const requestDSL: seq<string>
    const responseDSL: seq<string>
    const requestMatchReplace: seq<string>
    const responseMatchReplace: seq<string>
    var queue: seq<Queued>

    constructor (lib: Library, listenAddr: string, onRequest: bool, onResponse: bool,
                 requestDSL: seq<string>, responseDSL: seq<string>,
                 requestMatchReplace: seq<string>, responseMatchReplace: seq<string>)
      ensures this.lib == lib && this.listenAddr == listenAddr
      ensures this.onRequest == onRequest && this.onResponse == onResponse
      ensures this.requestDSL == requestDSL && this.responseDSL == responseDSL
      ensures this.requestMatchReplace == requestMatchReplace && this.responseMatchReplace == responseMatchReplace
      ensures queue == []
    {
      this.lib, this.listenAddr, this.onRequest, this.onResponse := lib, listenAddr, onRequest, onResponse;
      this.requestDSL, this.responseDSL := requestDSL, responseDSL;
      this.requestMatchReplace, this.responseMatchReplace := requestMatchReplace, responseMatchReplace;
      queue := [];
    }

    /** The hosts under which the proxy serves its own pages. */
    predicate Hijacks(host: string) {
      EqualFoldAny(host, ["proxify", "proxify:443", "proxify:80", listenAddr])
    }

    lemma HijacksOnly(host: string)
      ensures Hijacks(host) <==>
              SameFold(host, "proxify") || SameFold(host, "proxify:443") || SameFold(host, "proxify:80") ||
              SameFold(host, listenAddr)
    {
      hide SameFold, Lower;
      var own := ["proxify", "proxify:443", "proxify:80", listenAddr];
      LowerSame(host, own[0]);
      LowerSame(host, own[1]);
      LowerSame(host, own[2]);
      LowerSame(host, own[3]);
    }

    /** What the queued transactions' Match pointers now say. */
    ghost function Verdicts(): seq<Option<bool>>
      reads this, set q | q in queue :: q.userdata.matched
      ensures |Verdicts()| == |queue|
      ensures forall i | 0 <= i < |queue| :: Verdicts()[i] == Deref(queue[i].userdata.matched)
    {
      VerdictsOf(queue)
    }

    /** The loop over the request filters. */
    method TestRequest(req: Request) returns (results: seq<bool>)
      modifies req`body, req.body
      ensures |results| == |requestDSL|
      ensures req.body == old(req.body) || fresh(req.body)
      ensures req.body.broken == old(req.body.broken)
      ensures !req.body.broken ==>
                req.View() == old(req.View()) && RequestTested(lib, requestDSL, old(req.View()), results)
    {
      results := [];
      var i := 0;
      while i < |requestDSL|
        invariant 0 <= i <= |requestDSL| && |results| == i
        invariant req.body == old(req.body) || fresh(req.body)
        invariant req.body.broken == old(req.body.broken)
        invariant !req.body.broken ==>
                    req.View() == old(req.View()) && RequestTested(lib, requestDSL[..i], old(req.View()), results)
      {
        var m := RequestToMap(lib, req);
        var v := lib.test(requestDSL[i], m);
        results := results + [v == Some(true)];
        i := i + 1;
      }
      assert requestDSL[..i] == requestDSL;
    }

    /** The loop over the response filters. */
    method TestResponse(resp: Response) returns (results: seq<bool>)
      requires resp.body != null
      modifies resp`body, resp.body
      ensures |results| == |responseDSL|
      ensures resp.body != null && (resp.body == old(resp.body) || fresh(resp.body))
      ensures resp.body.broken == old(resp.body.broken)
      ensures !resp.body.broken ==>
                resp.View() == old(resp.View()) &&
                ResponseTested(lib, responseDSL, old(resp.View()), resp.contentLength, results)
    {
      results := [];
      var i := 0;
      while i < |responseDSL|
        invariant 0 <= i <= |responseDSL| && |results| == i
        invariant resp.body != null && (resp.body == old(resp.body) || fresh(resp.body))
        invariant resp.body.broken == old(resp.body.broken)
        invariant !resp.body.broken ==>
                    resp.View() == old(resp.View()) &&
                    ResponseTested(lib, responseDSL[..i], old(resp.View()), resp.contentLength, results)
      {
        var m := ResponseToMap(lib, resp);
        var v := lib.test(responseDSL[i], m);
        results := results + [v == Some(true)];
        i := i + 1;
      }
      assert responseDSL[..i] == responseDSL;
    }

    /** The Match pointer after the request filters: a fresh bool, or nil. */
    method RequestMatch(results: seq<bool>) returns (matched: Verdict?)
      ensures Deref(matched) == RequestVerdict(results)
      ensures matched == null <==> results == []
      ensures matched != null ==> fresh(matched) && (matched.value <==> forall i | 0 <= i < |results| :: results[i])
    {
      matched := null;
      if |results| > 0 {
        var tmp := EvalBoolSlice(results);
        matched := new Verdict(tmp);
      }
    }

    /** The Match pointer after the response filters: a fresh bool, or the one
        there was. */
    method ResponseMatch(prior: Verdict?, results: seq<bool>) returns (matched: Verdict?)
      ensures Deref(matched) == PairVerdict(Deref(prior), results)
      ensures matched == prior || fresh(matched)
      ensures results == [] ==> matched == prior
      ensures results != [] ==>
                matched != null &&
                (matched.value <==> (prior != null ==> old(prior.value)) && forall i | 0 <= i < |results| :: results[i])
    {
      matched := prior;
      if |results| > 0 {
        var tmp := EvalBoolSlice(results);
        if prior != null {
          tmp := prior.value && tmp;
        }
        matched := new Verdict(tmp);
      }
    }

    /** Match-replace and the removal of "br", before the request is logged. */
    method RewriteRequest(req: Request)
      modifies req`verb, req`header, req`url, req`body, req.body
      ensures !old(req.body.broken) ==> req.View() == Outgoing(lib, requestMatchReplace, old(req.View()))
    {
      if |requestMatchReplace| != 0 {
        var _ := MatchReplaceRequest(lib, requestMatchReplace, req);
      }
      RemoveBrEncoding(req);
    }

    /** The logger's LogRequest and LogResponse, with room in the queue. */
    method Enqueue(q: Queued)
      modifies `queue
      ensures queue == old(queue) + [q]
      ensures Verdicts() == old(Verdicts()) + [Deref(q.userdata.matched)]
    {
      queue := queue + [q];
      assert forall i | 0 <= i < |old(queue)| :: Verdicts()[i] == old(Verdicts())[i];
    }

    /** The verdicts of what is queued depend only on those Match pointers. */
    twostate lemma VerdictsKept()
      requires queue == old(queue)
      requires forall q | q in queue && q.userdata.matched != null :: unchanged(q.userdata.matched)
      ensures Verdicts() == old(Verdicts())
    {
    }

    /** Filtering a request leaves it as it reads for the rewriting, and logs
        one transaction with the verdict of the filters and no response. A
        request for the proxy itself or for a callback is not logged. The user
        data returned is what the session keeps. */
    method ModifyRequest(req: Request, id: string)
      returns (handling: Handling, userData: Session, results: seq<bool>)
      modifies `queue, req, req.body
      ensures handling == if Hijacks(req.host) then Hijacked else if onRequest then CalledBack else Logged
      ensures req.contentLength == -1
      ensures handling != Logged ==> queue == old(queue) && Verdicts() == old(Verdicts()) && req.View() == old(req.View())
      ensures handling == Logged ==>
                && |results| == |requestDSL|
                && (!old(req.body.broken) ==>
                      RequestTested(lib, requestDSL, old(req.View()), results) &&
                      req.View() == Outgoing(lib, requestMatchReplace, old(req.View())))
                && Deref(userData.matched) == RequestVerdict(results)
                && (userData.matched != null ==> fresh(userData.matched))
                && userData.id == id && userData.host == req.host && !userData.hasResponse
                && queue == old(queue) + [Queued(userData, req, null)]
                && Verdicts() == old(Verdicts()) + [RequestVerdict(results)]
    {
      hide RequestTested, Outgoing, VerdictsOf, Hijacks;
      req.contentLength := -1;
      userData, results := Session(id, null, false, req.host), [];
      if Hijacks(req.host) {
        VerdictsKept();
        return Hijacked, userData, results;
      }
      if onRequest {
        VerdictsKept();
        return CalledBack, userData, results;
      }
      results := TestRequest(req);
      var matched := RequestMatch(results);
      userData := userData.(matched := matched);
      RewriteRequest(req);
      VerdictsKept();
      Enqueue(Queued(userData, req, null));
      handling := Logged;
    }

    /** The response as its filters see it. */
    function FilteredView(resp: Response): ResponseView
      requires resp.body != null
      reads resp, resp.body
    {
      if resp.contentLength == 0 then resp.View().(header := resp.header - {"Content-Length"}) else resp.View()
    }

    /** Dropping the length header of an empty response. */
    method DropLength(resp: Response)
      requires resp.body != null
      modifies resp`header
      ensures resp.View() == old(FilteredView(resp))
      ensures resp.header == if resp.contentLength == 0 then old(resp.header) - {"Content-Length"} else old(resp.header)
    {
      if resp.contentLength == 0 {
        resp.header := resp.header - {"Content-Length"};
      }
    }

    /** Match-replace of a response, if it is configured. */
    method RewriteResponse(resp: Response)
      requires resp.body != null
      modifies resp`header, resp`body, resp`contentLength, resp.body
      ensures resp.body == old(resp.body) || resp.body == null || fresh(resp.body)
      ensures !old(resp.body.broken) ==> (resp.header, Rest(resp.body)) == Returned(lib, responseMatchReplace, old(resp.View()))
      ensures !old(resp.body.broken) && resp.body != null ==> !resp.body.broken
    {
      if |responseMatchReplace| != 0 {
        var _ := MatchReplaceResponse(lib, responseMatchReplace, resp);
      }
    }

    /** A redirect that leads to another host, or nowhere. */
    predicate LeadsAway(resp: Response)
      reads resp, resp.request
    {
      resp.status in {301, 302} && lib.location(resp.header, resp.request.url) != Some(resp.request.host)
    }

    /** Logging a response, and closing after a redirect that leads away. */
    method Conclude(resp: Response, userData: Session)
      modifies `queue, resp`close
      ensures queue == old(queue) + [Queued(userData, resp.request, resp)]
      ensures Verdicts() == old(Verdicts()) + [Deref(userData.matched)]
      ensures resp.close ==
              (old(resp.close) || ((resp.status == 301 || resp.status == 302) &&
                                   lib.location(resp.header, resp.request.url) != Some(resp.request.host)))
    {
      Enqueue(Queued(userData, resp.request, resp));
      if LeadsAway(resp) {
        resp.close := true;
      }
    }

    /** Filtering a response leaves it as it reads for the rewriting, and logs
        one transaction whose verdict joins both lists of filters. The verdict
        is a fresh bool: what is already queued keeps its verdicts. The
        connection is closed after a redirect that leads away. */
    method ModifyResponse(resp: Response, context: Option<Session>) returns (handling: Handling, results: seq<bool>)
      requires resp.body != null
      modifies `queue, resp, resp.body
      ensures handling == if onResponse then CalledBack else Logged
      ensures handling == CalledBack ==>
                && queue == old(queue) && Verdicts() == old(Verdicts()) && resp.close == old(resp.close)
                && resp.body != null && resp.View() == old(FilteredView(resp))
      ensures handling == Logged ==>
                && |results| == |responseDSL|
                && (!old(resp.body.broken) ==>
                      && ResponseTested(lib, responseDSL, old(FilteredView(resp)), old(resp.contentLength), results)
                      && (resp.header, Rest(resp.body)) == Returned(lib, responseMatchReplace, old(FilteredView(resp)))
                      && (resp.body != null ==> !resp.body.broken))
                && resp.close ==
                     (old(resp.close) || ((resp.status == 301 || resp.status == 302) &&
                                          lib.location(resp.header, resp.request.url) != Some(resp.request.host)))
      ensures handling == Logged ==>
                && |queue| == |old(queue)| + 1 && queue[..|old(queue)|] == old(queue)
                && (var q := queue[|old(queue)|];
                    && q.request == resp.request && q.response == resp && q.userdata.hasResponse
                    && (q.userdata.matched == (if context.Some? then context.value.matched else null) ||
                        fresh(q.userdata.matched))
                    && (context.Some? ==> q.userdata.id == context.value.id && q.userdata.host == context.value.host)
                    && (context.None? ==> q.userdata.id == "" && q.userdata.host == ""))
      ensures handling == Logged ==>
                Verdicts() == old(Verdicts()) +
                              [PairVerdict(if context.Some? then old(Deref(context.value.matched)) else None, results)]
    {
      hide ResponseTested, VerdictsOf, Returned, RewrittenResponse, FilteredView, PairVerdict;
      var userData := if context.Some? then context.value else Session("", null, false, "");
      userData, results := userData.(hasResponse := true), [];
      DropLength(resp);
      if onResponse {
        VerdictsKept();
        return CalledBack, results;
      }
      results := TestResponse(resp);
      var matched := ResponseMatch(userData.matched, results);
      userData := userData.(matched := matched);
      RewriteResponse(resp);
      VerdictsKept();
      Conclude(resp, userData);
      handling := Logged;
    }
  }
}
