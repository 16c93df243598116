/** From the filters of an exchange, through any run of the logger, to the
    structured output and to what swaggergen reads back. */
module EndToEnd {
  import opened Text
  import opened LogNames
  import opened LogSpec
  import opened LogPairs
  import opened Messages
  import LogSplit
  import LoggerRuns
  import Filters
  import Http
  import P = Proxy

  // ----- from the modifiers to the logger -------------------------------

  /** The response reader of the logger: the text and the data of a response,
      None when it cannot be read. */
  type Chain = Http.ResponseView -> Option<Response>

  /** A request as the consumer finds it. */
  function RequestOf(lib: Http.Library, r: Http.Request): Request
    reads r, r.body
  {
    if r.body.broken then Request(r.url.text, "", None)
    else
      var dump := lib.dumpRequest(r.View());
      Request(r.url.text, if dump.Some? then dump.value else "", DataFor(lib, r.View()))
  }

  /** The consumer reads a request: it dumps it, and extracts its data from what
      the dump put back. */
  method ReadRequest(lib: Http.Library, req: Http.Request) returns (r: Request)
    modifies req`body, req.body
    ensures r == old(RequestOf(lib, req))
    ensures !old(req.body.broken) ==> req.View() == old(req.View())
  {
    var url := req.url.text;
    var dump := Http.DumpRequest(lib, req);
    var data := NewHttpRequestData(lib, req);
    r := Request(url, if dump.Some? then dump.value else "", data);
  }

  /** A response as the consumer finds it; one without a readable body is none. */
  function ResponseOf(chain: Chain, r: Http.Response?): Option<Response>
    reads r, if r == null then null else r.body
  {
    if r == null || r.body == null || r.body.broken then None else chain(r.View())
  }

  /** The transaction a queued entry stands for. */
  function TxnOf(lib: Http.Library, chain: Chain, q: P.Queued, stamp: string): Txn
    reads q.request, q.request.body, q.response, if q.response == null then null else q.response.body, q.userdata.matched
  {
    Txn(UserData(q.userdata.id, P.Deref(q.userdata.matched), q.userdata.hasResponse, q.userdata.host),
        Some(RequestOf(lib, q.request)), ResponseOf(chain, q.response), stamp)
  }

  /** The transactions of an exchange carry the verdicts of its filters. */
  predicate Judged(a: Txn, b: Txn, request: seq<bool>, response: seq<bool>) {
    && IsPair(a, b)
    && a.userdata.matched == Filters.RequestVerdict(request)
    && b.userdata.matched == Filters.PairVerdict(Filters.RequestVerdict(request), response)
  }

  /** What the server answers. */
  datatype Answer = Answer(status: int, header: Http.Header, body: string, broken: bool, length: int)
  {
    /** As the response filters see it. */
    function View(): Http.ResponseView {
      Http.ResponseView(status, if length == 0 then header - {"Content-Length"} else header, body)
    }
  }

  /** The transactions of two entries that share a session. */
  ghost predicate Entered(lib: Http.Library, chain: Chain, q: P.Queued, r: P.Queued, first: string, second: string,
                          request: seq<bool>, response: seq<bool>)
    reads q.request, q.request.body, q.response, if q.response == null then null else q.response.body, q.userdata.matched
    reads r.request, r.request.body, r.response, if r.response == null then null else r.response.body, r.userdata.matched
  {
    var a, b := TxnOf(lib, chain, q, first), TxnOf(lib, chain, r, second);
    && a.userdata.id == b.userdata.id == q.userdata.id && a.userdata.host == b.userdata.host == q.userdata.host
    && a.userdata.hasResponse == q.userdata.hasResponse && b.userdata.hasResponse == r.userdata.hasResponse
    && a.stamp == first && b.stamp == second
    && (if b.response.Some? then Judged(a, b, request, response)
        else b.userdata.matched == Filters.PairVerdict(Filters.RequestVerdict(request), response))
  }

  lemma Enter(lib: Http.Library, chain: Chain, q: P.Queued, r: P.Queued, first: string, second: string,
              request: seq<bool>, response: seq<bool>)
    requires q.response == null && q.userdata.id == r.userdata.id && q.userdata.host == r.userdata.host
    requires P.Deref(q.userdata.matched) == Filters.RequestVerdict(request)
    requires P.Deref(r.userdata.matched) == Filters.PairVerdict(Filters.RequestVerdict(request), response)
    ensures Entered(lib, chain, q, r, first, second, request, response)
  {
  }

  lemma TwoMore<T>(s: seq<T>, v: T, w: T)
    ensures s + [v] + [w] == s + [v, w]
  {
  }

  /** A request through the request modifier. */
  method Ask(p: P.Proxy, req: Http.Request, id: string) returns (request: seq<bool>, session: P.Session)
    requires !p.Hijacks(req.host) && !p.onRequest
    modifies p`queue, req, req.body
    ensures |request| == |p.requestDSL|
    ensures !old(req.body.broken) ==> P.RequestTested(p.lib, p.requestDSL, old(req.View()), request)
    ensures p.queue == old(p.queue) + [P.Queued(session, req, null)]
    ensures session.id == id && session.host == req.host
    ensures P.Deref(session.matched) == Filters.RequestVerdict(request)
    ensures p.Verdicts() == old(p.Verdicts()) + [Filters.RequestVerdict(request)]
  {
    hide P.RequestTested, P.Outgoing, P.VerdictsOf, Filters.RequestVerdict;
    var handling;
    handling, session, request := p.ModifyRequest(req, id);
  }

  /** The answer to a request, through the response modifier. */
  method Respond(p: P.Proxy, req: Http.Request, session: P.Session, answer: Answer)
    returns (response: seq<bool>, resp: Http.Response, ghost entry: P.Queued)
    requires !p.onResponse
    modifies p`queue
    ensures fresh(resp) && |response| == |p.responseDSL|
    ensures !answer.broken ==> P.ResponseTested(p.lib, p.responseDSL, answer.View(), answer.length, response)
    ensures p.queue == old(p.queue) + [entry]
    ensures entry.request == req && entry.response == resp
    ensures entry.userdata.id == session.id && entry.userdata.host == session.host
    ensures P.Deref(entry.userdata.matched) == Filters.PairVerdict(old(P.Deref(session.matched)), response)
    ensures p.Verdicts() == old(p.Verdicts()) + [Filters.PairVerdict(old(P.Deref(session.matched)), response)]
    ensures P.Deref(session.matched) == old(P.Deref(session.matched))
  {
    hide P.ResponseTested, P.Returned, P.VerdictsOf, Filters.PairVerdict;
    ghost var n := |p.queue|;
    var body := new Http.Body(answer.body, answer.broken);
    resp := new Http.Response(answer.status, req, answer.header, body, answer.length);
    p.VerdictsKept();
    var handling;
    handling, response := p.ModifyResponse(resp, Some(session));
    entry := p.queue[n];
    assert P.Deref(entry.userdata.matched) == p.Verdicts()[n];
  }

  /** An exchange through both modifiers: it queues two entries, and the
      transactions they stand for are a pair that carries the verdicts of the
      filters as they were evaluated on the request and on the answer. If the
      logged response cannot be read the second is a transaction without
      response, with the same verdict. first and second are the times at which
      the consumer takes them. */
  method Exchange(p: P.Proxy, chain: Chain, req: Http.Request, id: string, answer: Answer,
                  ghost first: string, ghost second: string)
    returns (request: seq<bool>, response: seq<bool>, ghost q: P.Queued, ghost r: P.Queued)
    requires !p.Hijacks(req.host) && !p.onRequest && !p.onResponse
    modifies p`queue, req, req.body
    ensures !old(req.body.broken) ==> P.RequestTested(p.lib, p.requestDSL, old(req.View()), request)
    ensures !answer.broken ==> P.ResponseTested(p.lib, p.responseDSL, answer.View(), answer.length, response)
    ensures |request| == |p.requestDSL| && |response| == |p.responseDSL|
    ensures p.queue == old(p.queue) + [q, r]
    ensures p.Verdicts() == old(p.Verdicts()) +
              [Filters.RequestVerdict(request), Filters.PairVerdict(Filters.RequestVerdict(request), response)]
    ensures q.request == r.request == req && q.userdata.id == id && q.userdata.host == req.host
    ensures Entered(p.lib, chain, q, r, first, second, request, response)
  {
    hide P.RequestTested, P.ResponseTested, P.VerdictsOf, P.Deref;
    hide Filters.RequestVerdict, Filters.PairVerdict, Entered, TxnOf, Answer.View;
    ghost var queue, verdicts := p.queue, p.Verdicts();
    var session, resp;
    request, session := Ask(p, req, id);
    q := P.Queued(session, req, null);
    response, resp, r := Respond(p, req, session, answer);
    TwoMore(queue, q, r);
    TwoMore(verdicts, Filters.RequestVerdict(request), Filters.PairVerdict(Filters.RequestVerdict(request), response));
    Enter(p.lib, chain, q, r, first, second, request, response);
  }

  // ----- the structured output ------------------------------------------

  /** The data of the logged exchange can be extracted and encoded. */
  predicate Encodes(cfg: Setup, b: Txn) {
    && b.request.Some? && b.request.value.data.Some? && b.response.Some?
    && cfg.encode(Record(b.stamp, b.request.value.url, b.request.value.data.value, b.response.value.data)).Some?
  }

  /** The request of an exchange has no line; its response has one iff every
      filter of both lists held. */
  lemma OwnLines(cfg: Setup, a: Txn, b: Txn, request: seq<bool>, response: seq<bool>)
    requires Judged(a, b, request, response) && cfg.structured && Encodes(cfg, b)
    ensures LinesOf(cfg, [a]) == []
    ensures |LinesOf(cfg, [b])| == if Filters.All(request) && Filters.All(response) then 1 else 0
  {
    Filters.PassesIffAllTrue(request, response);
    assert LinesOf(cfg, [b]) == match LineOf(cfg, b) case None => [] case Some(line) => [line];
  }

  /** The lines of a sequence around two of its transactions. */
  lemma LinesAround(cfg: Setup, ts: seq<Txn>, i: nat, j: nat)
    requires i < j < |ts|
    ensures LinesOf(cfg, ts) ==
            LinesOf(cfg, ts[..i]) + LinesOf(cfg, [ts[i]]) + LinesOf(cfg, ts[i + 1..j]) + LinesOf(cfg, [ts[j]])
            + LinesOf(cfg, ts[j + 1..])
  {
    assert ts == ts[..i] + [ts[i]] + ts[i + 1..j] + [ts[j]] + ts[j + 1..];
    LinesOfAppend(cfg, ts[..i] + [ts[i]] + ts[i + 1..j] + [ts[j]], ts[j + 1..]);
    LinesOfAppend(cfg, ts[..i] + [ts[i]] + ts[i + 1..j], [ts[j]]);
    LinesOfAppend(cfg, ts[..i] + [ts[i]], ts[i + 1..j]);
    LinesOfAppend(cfg, ts[..i], [ts[i]]);
  }

  /** Any run of the logger, finished or not, whatever else it logged and
      however its goroutines interleaved: an exchange whose structured write was
      begun while the writer was open contributes to the structured output
      exactly its own line, at its place in the order of sending, if every
      request filter and every response filter held (also when there are none),
      and nothing otherwise. */
  lemma OneLineIffAllFiltersHeld(cfg: Setup, s: LoggerRuns.State, i: nat, j: nat, request: seq<bool>, response: seq<bool>)
    requires LoggerRuns.Reachable(cfg, s) && !s.torn && (s.consumer.WroteRecord? ==> s.closer != LoggerRuns.Running)
    requires i < j < |s.begun| && |s.begun| <= |s.enqueued|
    requires Judged(s.enqueued[i], s.enqueued[j], request, response) && cfg.structured && Encodes(cfg, s.enqueued[j])
    ensures s.begun == s.enqueued[..|s.begun|]
    ensures var own := LinesOf(cfg, [s.enqueued[j]]);
            && |own| == (if Filters.All(request) && Filters.All(response) then 1 else 0)
            && s.content == Framed(LinesOf(cfg, s.begun[..i]) + LinesOf(cfg, s.begun[i + 1..j]) + own
                                   + LinesOf(cfg, s.begun[j + 1..]))
  {
    LoggerRuns.StructuredOutput(cfg, s);
    LoggerRuns.WholeIffNotTorn(cfg, s);
    OwnLines(cfg, s.enqueued[i], s.enqueued[j], request, response);
    LinesAround(cfg, s.begun, i, j);
    assert LinesOf(cfg, s.begun[..i]) + [] == LinesOf(cfg, s.begun[..i]);
  }

  /** The same of what an exchange queued: when the logger is sent the
      transactions of its two entries, its filters decide its line. */
  lemma ExchangeLogged(cfg: Setup, s: LoggerRuns.State, i: nat, j: nat, lib: Http.Library, chain: Chain,
                       q: P.Queued, r: P.Queued, first: string, second: string, request: seq<bool>, response: seq<bool>)
    requires LoggerRuns.Reachable(cfg, s) && !s.torn && (s.consumer.WroteRecord? ==> s.closer != LoggerRuns.Running)
    requires i < j < |s.begun| && |s.begun| <= |s.enqueued|
    requires s.enqueued[i] == TxnOf(lib, chain, q, first) && s.enqueued[j] == TxnOf(lib, chain, r, second)
    requires Entered(lib, chain, q, r, first, second, request, response)
    requires cfg.structured && Encodes(cfg, s.enqueued[j])
    ensures var own := LinesOf(cfg, [s.enqueued[j]]);
            && |own| == (if Filters.All(request) && Filters.All(response) then 1 else 0)
            && s.content == Framed(LinesOf(cfg, s.begun[..i]) + LinesOf(cfg, s.begun[i + 1..j]) + own
                                   + LinesOf(cfg, s.begun[j + 1..]))
  {
    OneLineIffAllFiltersHeld(cfg, s, i, j, request, response);
  }

  /** In particular when the logger has ended and Close came after the consumer
      had begun everything ever sent and was not between a record and its
      newline: the output is all of it, the exchange included. */
  lemma FinishedOutput(cfg: Setup, before: seq<LoggerRuns.Step>, after: seq<LoggerRuns.Step>,
                       c: LoggerRuns.State, z: LoggerRuns.State, i: nat, j: nat, request: seq<bool>, response: seq<bool>)
    requires LoggerRuns.Runs(cfg, LoggerRuns.INITIAL, before) && LoggerRuns.After(cfg, LoggerRuns.INITIAL, before) == c
    requires LoggerRuns.Runs(cfg, LoggerRuns.INITIAL, before + [LoggerRuns.CloseWriter] + after)
    requires LoggerRuns.After(cfg, LoggerRuns.INITIAL, before + [LoggerRuns.CloseWriter] + after) == z
    requires LoggerRuns.Begun(c) == z.enqueued && !c.consumer.WroteRecord?
    requires i < j < |z.enqueued| && cfg.structured
    requires Judged(z.enqueued[i], z.enqueued[j], request, response) && Encodes(cfg, z.enqueued[j])
    ensures var ts, own := z.enqueued, LinesOf(cfg, [z.enqueued[j]]);
            && |own| == (if Filters.All(request) && Filters.All(response) then 1 else 0)
            && z.content == Framed(LinesOf(cfg, ts[..i]) + LinesOf(cfg, ts[i + 1..j]) + own + LinesOf(cfg, ts[j + 1..]))
  {
    LoggerRuns.CloseLeaves(cfg, before, after);
    assert LoggerRuns.Reachable(cfg, z);
    OneLineIffAllFiltersHeld(cfg, z, i, j, request, response);
  }

  // ----- the files ------------------------------------------------------

  lemma {:induction false} ContentMeansSave(saves: seq<Save>, file: string)
    requires ContentOf(saves, file) != ""
    ensures SavedTo(saves, file)
  {
    if saves[0].file != file {
      ContentMeansSave(saves[1..], file);
      var i :| 0 <= i < |saves[1..]| && saves[1..][i].file == file;
      assert saves[i + 1].file == file;
    }
  }

  /** The content of a file once the consumer has ended, for any schedule. */
  lemma FinishedContent(cfg: Setup, s: LoggerRuns.State, file: string)
    requires LoggerRuns.Reachable(cfg, s) && s.consumer.Finished?
    requires ContentOf(AllSaves(cfg.options, s.enqueued), file) != ""
    ensures file in s.files && s.files[file] == ContentOf(AllSaves(cfg.options, s.enqueued), file)
  {
    LoggerRuns.DrainedAtEnd(cfg, s);
    ContentMeansSave(AllSaves(cfg.options, s.enqueued), file);
    FilesAreContents(map[], AllSaves(cfg.options, s.enqueued), file);
  }

  /** Any run of the logger, whatever else it logged and however its producers,
      its consumer and Close interleaved: at the end the file of an exchange
      with a verdict other than true holds both requests and the response, and
      swaggergen reads the response back from it exactly when it starts like a
      status line and no later line of the requests does. */
  lemma LoggedPairReadBack(cfg: Setup, s: LoggerRuns.State, a: Txn, b: Txn)
    requires LoggerRuns.Reachable(cfg, s) && s.consumer.Finished?
    requires IsPair(a, b) && cfg.options.Whole() && Untruncated(cfg.options, a, b)
    requires CleanIds(s.enqueued) && WithId(s.enqueued, a.userdata.id) == [a, b] && CleanId(a.userdata.id)
    requires b.userdata.matched != Some(true)
    ensures PlainFile(a) in s.files
    ensures var content, full := s.files[PlainFile(a)], b.response.value.full;
            && content == LogSplit.PairFile(a.request.value.dump, b.request.value.dump, full)
            && (LogSplit.ReadBack(content) == full + "\n" <==>
                  LogSplit.StatusPrefix(full) &&
                  !LogSplit.LaterStatusLine(a.request.value.dump + "\n" + b.request.value.dump))
  {
    PairStored(cfg.options, s.enqueued, a, b);
    FinishedContent(cfg, s, PlainFile(a));
    PairReadBack(cfg.options, s.enqueued, a, b);
  }

  /** With a verdict of true the response goes alone to the ".match" file, and
      the file of the exchange holds only the requests. */
  lemma MatchedPairSplit(cfg: Setup, s: LoggerRuns.State, a: Txn, b: Txn)
    requires LoggerRuns.Reachable(cfg, s) && s.consumer.Finished?
    requires IsPair(a, b) && cfg.options.Whole() && Untruncated(cfg.options, a, b)
    requires CleanIds(s.enqueued) && WithId(s.enqueued, a.userdata.id) == [a, b] && CleanId(a.userdata.id)
    requires b.userdata.matched == Some(true)
    ensures PlainFile(a) in s.files && MatchFile(a) in s.files
    ensures s.files[PlainFile(a)] == a.request.value.dump + "\n" + b.request.value.dump + "\n"
    ensures s.files[MatchFile(a)] == "\n" + b.response.value.full + "\n"
    ensures LogSplit.ReadBack(s.files[MatchFile(a)]) == b.response.value.full + "\n" <==>
            LogSplit.StatusPrefix(b.response.value.full)
  {
    PairStored(cfg.options, s.enqueued, a, b);
    FinishedContent(cfg, s, PlainFile(a));
    FinishedContent(cfg, s, MatchFile(a));
    MatchFileReadBack(b.response.value.full);
  }

  lemma MatchFileReadBack(full: string)
    ensures LogSplit.ReadBack("\n" + full + "\n") == full + "\n" <==> LogSplit.StatusPrefix(full)
  {
    var f := "\n" + full + "\n";
    assert f[1..] == full + "\n";
    LogSplit.StatusWithinLine(full, "\n");
    if !LogSplit.StatusPrefix(full) {
      ShorterReadBack(f[1..]);
    }
  }

  /** What is read back never starts at the beginning of the text. */
  lemma {:induction false} ShorterReadBack(s: string)
    requires s != ""
    ensures |LogSplit.ReadBack(s)| < |s|
  {
    if !LogSplit.MatchesAt(s, 0) && s[1..] != "" {
      ShorterReadBack(s[1..]);
    }
  }
}
