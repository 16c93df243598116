/** Filter evaluation: the variables of a message, the verdict of a list of
    filters, and the two modifiers that log a transaction. */
module Filters {
  import opened Text
  import opened Http
  import opened Rewrite

  // ----- variable names -------------------------------------------------

  function Underscored(s: string): string {
    if s == "" then "" else [if s[0] == '-' then '_' else s[0]] + Underscored(s[1..])
  }

  function Lower(s: string): (r: string)
    ensures |r| == |s|
    ensures forall i | 0 <= i < |s| :: r[i] == if 'A' <= s[i] <= 'Z' then s[i] - 'A' + 'a' else s[i]
  {
    if s == "" then ""
    else [if 'A' <= s[0] <= 'Z' then s[0] - 'A' + 'a' else s[0]] + Lower(s[1..])
  }

  predicate Space(c: char) { c == ' ' || 9 <= c as int <= 13 }

  function TrimSpace(s: string): string
    decreases |s|
  {
    if s == "" then ""
    else if Space(s[0]) then TrimSpace(s[1..])
    else if Space(s[|s| - 1]) then TrimSpace(s[..|s| - 1])
    else s
  }

  /** The spaces around a name are dropped, and no others. */
  lemma {:induction false} TrimsOuter(a: string, s: string, b: string)
    requires (forall c | c in a :: Space(c)) && (forall c | c in b :: Space(c))
    requires s != "" && !Space(s[0]) && !Space(s[|s| - 1])
    ensures TrimSpace(a + s + b) == s
    decreases |a| + |b|
  {
    var t := a + s + b;
    if a != "" {
      assert t[0] == a[0] && t[1..] == a[1..] + s + b;
      TrimsOuter(a[1..], s, b);
    } else if b != "" {
      var front := b[..|b| - 1];
      assert t[0] == s[0] && t[|t| - 1] == b[|b| - 1] && t[..|t| - 1] == a + s + front;
      TrimsOuter(a, s, front);
    } else {
      assert t == s;
    }
  }

  lemma SpaceMeans(c: char)
    ensures Space(c) <==> c in {' ', '\t', '\n', '\U{0b}', '\U{0c}', '\r'}
  {
  }

  /** The variable a header name becomes. */
  function VarName(key: string): string {
    Lower(TrimSpace(Underscored(key)))
  }

  /** The values of the headers are variables; with several headers of one
      variable name any of them may have been written last. */
  ghost predicate FromHeader(header: Header, name: string, value: Value) {
    exists key | key in header :: VarName(key) == name && value == Str(Join(header[key], " "))
  }

  ghost predicate IsHeaderVar(header: Header, name: string) {
    exists key | key in header :: VarName(key) == name
  }

  /** The all_headers text of the header lines in some order. */
  function HeaderText(header: Header, keys: seq<string>): string
    requires forall key | key in keys :: key in header
  {
    if keys == [] then ""
    else
      var last := keys[|keys| - 1];
      HeaderText(header, keys[..|keys| - 1]) + (VarName(last) + ": " + Join(header[last], " "))
  }

  /** keys lists every element of s once. */
  ghost predicate OrderOf(keys: seq<string>, s: set<string>) {
    (forall i, j | 0 <= i < j < |keys| :: keys[i] != keys[j]) && (forall key :: key in keys <==> key in s)
  }

  ghost predicate AllHeaders(header: Header, value: Value) {
    exists keys | OrderOf(keys, header.Keys) :: value == Str(HeaderText(header, keys))
  }

  lemma NoHeaders(header: Header)
    ensures OrderOf([], {}) && HeaderText(header, []) == ""
  {
  }

  lemma NextHeader(header: Header, done: set<string>, order: seq<string>, key: string)
    requires key in header && key !in done && done <= header.Keys && OrderOf(order, done)
    ensures OrderOf(order + [key], done + {key})
    ensures HeaderText(header, order + [key]) == HeaderText(header, order) + (VarName(key) + ": " + Join(header[key], " "))
  {
    assert (order + [key])[..|order|] == order;
  }

  /** The header loop of both map builders, over the keys in any order. */
  method AddHeaders(header: Header, before: Env) returns (m: Env, headers: string)
    ensures AllHeaders(header, Str(headers))
    ensures forall name | name in m ::
              if IsHeaderVar(header, name) then FromHeader(header, name, m[name])
              else name in before && m[name] == before[name]
    ensures forall name | name in before || IsHeaderVar(header, name) :: name in m
  {
    hide VarName, Join, OrderOf, HeaderText;
    m, headers := before, "";
    NoHeaders(header);
    var todo := header.Keys;
    ghost var done: set<string>, order: seq<string> := {}, [];
    while todo != {}
      invariant todo <= header.Keys && done == header.Keys - todo
      invariant OrderOf(order, done) && (forall key | key in order :: key in header)
      invariant headers == HeaderText(header, order)
      invariant forall name | name in m ::
                  if exists key | key in done :: VarName(key) == name then FromHeader(header, name, m[name])
                  else name in before && m[name] == before[name]
      invariant forall name | name in before :: name in m
      invariant forall key | key in done :: VarName(key) in m
    {
      var key :| key in todo;
      var k, vv := VarName(key), Join(header[key], " ");
      m := m[k := Str(vv)];
      NextHeader(header, done, order, key);
      assert headers + k + ": " + vv == headers + (k + ": " + vv);
      headers := headers + k + ": " + vv;
      todo, done, order := todo - {key}, done + {key}, order + [key];
    }
    assert done == header.Keys;
  }

  /** The request variables that never come from a header. */
  function RequestBuiltIns(v: RequestView, dump: string): Env {
    map["body" := Str(v.body), "raw" := Str(dump), "request" := Str(dump), "method" := Str(v.verb),
        "path" := Str(v.url.path), "host" := Str(v.url.host), "scheme" := Str(v.url.scheme),
        "url" := Str(v.url.text), "query" := Str(v.url.query)]
  }

  /** The variables of a request: every built-in variable wins over a header
      of that name, and every other variable is a header's. */
  ghost predicate RequestVars(lib: Library, view: RequestView, r: Option<Env>) {
    match r
    case None => lib.dumpRequest(view).None?
    case Some(m) =>
      && lib.dumpRequest(view).Some?
      && var builtIns := RequestBuiltIns(view, lib.dumpRequest(view).value);
      && (forall name | name in builtIns :: name in m && m[name] == builtIns[name])
      && "all_headers" in m && AllHeaders(view.header, m["all_headers"])
      && (forall name | name in m && name !in builtIns && name != "all_headers" ::
            FromHeader(view.header, name, m[name]))
      && (forall key | key in view.header :: VarName(key) in m)
  }

  /** The variables of a request, one by one. */
  lemma RequestVarsSpelled(lib: Library, view: RequestView, m: Env)
    requires RequestVars(lib, view, Some(m))
    ensures {"body", "raw", "request", "method", "path", "host", "scheme", "url", "query"} <= m.Keys
    ensures lib.dumpRequest(view).Some? && m["raw"] == m["request"] == Str(lib.dumpRequest(view).value)
    ensures m["body"] == Str(view.body) && m["method"] == Str(view.verb)
    ensures m["path"] == Str(view.url.path) && m["host"] == Str(view.url.host) && m["scheme"] == Str(view.url.scheme)
    ensures m["url"] == Str(view.url.text) && m["query"] == Str(view.url.query)
  {
    var builtIns := RequestBuiltIns(view, lib.dumpRequest(view).value);
    hide AllHeaders, FromHeader, VarName;
    assert builtIns.Keys == {"body", "raw", "request", "method", "path", "host", "scheme", "url", "query"};
    assert forall name | name in builtIns :: m[name] == builtIns[name];
  }

  /** Reading a request's variables leaves the request as it reads. */
  method RequestToMap(lib: Library, req: Request) returns (r: Option<Env>)
    modifies req`body, req.body
    ensures !old(req.body.broken) ==>
              req.View() == old(req.View()) && !req.body.broken && RequestVars(lib, old(req.View()), r)
    ensures old(req.body.broken) ==> r == None && req.body.broken
    ensures req.body == old(req.body) || fresh(req.body)
  {
    var m, headers := AddHeaders(req.header, map[]);
    m := m["all_headers" := Str(headers)];
    var body, ok := req.body.ReadAll();
    if !ok {
      return None;
    }
    req.body := new Body(body, false);
    m := m["body" := Str(body)];
    var reqdump := DumpRequest(lib, req);
    if reqdump.None? {
      return None;
    }
    m := m["raw" := Str(reqdump.value)];
    m := m["request" := Str(reqdump.value)];
    m := m["method" := Str(req.verb)];
    m := m["path" := Str(req.url.path)];
    m := m["host" := Str(req.url.host)];
    m := m["scheme" := Str(req.url.scheme)];
    m := m["url" := Str(req.url.text)];
    m := m["query" := Str(req.url.query)];
    r := Some(m);
  }

  /** The variables of a response: its length and status variables give way
      to headers of their names, the body and the dump do not. */
  ghost predicate ResponseVars(lib: Library, view: ResponseView, length: int, m: Env) {
    var dump := lib.dumpResponse(view);
    && "body" in m && m["body"] == Str(view.body)
    && "content_length" in m && "status_code" in m
    && "all_headers" in m && AllHeaders(view.header, m["all_headers"])
    && (if IsHeaderVar(view.header, "content_length") then FromHeader(view.header, "content_length", m["content_length"])
        else m["content_length"] == Num(length))
    && (if IsHeaderVar(view.header, "status_code") then FromHeader(view.header, "status_code", m["status_code"])
        else m["status_code"] == Num(view.status))
    && (dump.Some? ==> "raw" in m && "response" in m && m["raw"] == m["response"] == Str(dump.value))
    && (forall name | name in m && name !in {"body", "content_length", "status_code", "all_headers"} &&
                      (dump.Some? ==> name !in {"raw", "response"}) ::
          FromHeader(view.header, name, m[name]))
    && (forall key | key in view.header :: VarName(key) in m)
  }

  /** The variables of a response that no header can hide. */
  lemma ResponseVarsSpelled(lib: Library, view: ResponseView, length: int, m: Env)
    requires ResponseVars(lib, view, length, m)
    ensures "body" in m && m["body"] == Str(view.body)
    ensures lib.dumpResponse(view).Some? ==>
              "raw" in m && "response" in m && m["raw"] == m["response"] == Str(lib.dumpResponse(view).value)
  {
  }

  /** Reading a response's variables leaves the response as it reads. */
  method ResponseToMap(lib: Library, resp: Response) returns (r: Option<Env>)
    requires resp.body != null
    modifies resp`body, resp.body
    ensures resp.body != null && (resp.body == old(resp.body) || fresh(resp.body))
    ensures !old(resp.body.broken) ==>
              resp.View() == old(resp.View()) && !resp.body.broken &&
              r.Some? && ResponseVars(lib, old(resp.View()), resp.contentLength, r.value)
    ensures old(resp.body.broken) ==> r == None && resp.body.broken
  {
    hide VarName, Join, AllHeaders, FromHeader;
    var m: Env := map["content_length" := Num(resp.contentLength)];
    m := m["status_code" := Num(resp.status)];
    var headers;
    m, headers := AddHeaders(resp.header, m);
    m := m["all_headers" := Str(headers)];
    var body, ok := resp.body.ReadAll();
    if !ok {
      return None;
    }
    resp.body := new Body(body, false);
    m := m["body" := Str(body)];
    var dump := DumpResponse(lib, resp);
    if dump.Some? {
      m := m["raw" := Str(dump.value)];
      m := m["response" := Str(dump.value)];
    }
    r := Some(m);
  }

  lemma {:induction false} UnderscoredTail(s: string, u: string, i: nat)
    requires i <= |s| == |u| && forall j | i <= j < |s| :: u[j] == if s[j] == '-' then '_' else s[j]
    ensures Underscored(s[i..]) == u[i..]
    decreases |s| - i
  {
    if i < |s| {
      UnderscoredTail(s, u, i + 1);
      assert s[i..][1..] == s[i + 1..];
      assert u[i..] == [u[i]] + u[i + 1..];
    }
  }

  /** A name's variable, letter by letter. */
  lemma VarNameIs(s: string, t: string)
    requires |s| == |t| > 0 && !Space(s[0]) && !Space(s[|s| - 1])
    requires forall j | 0 <= j < |s| ::
               t[j] == if s[j] == '-' then '_' else if 'A' <= s[j] <= 'Z' then s[j] - 'A' + 'a' else s[j]
    ensures VarName(s) == t
  {
    var u := seq(|s|, j requires 0 <= j < |s| => if s[j] == '-' then '_' else s[j]);
    UnderscoredTail(s, u, 0);
    assert s[0..] == s && u[0..] == u;
    assert TrimSpace(u) == u;
    assert Lower(u) == t;
  }

  lemma LengthHeaderName()
    ensures VarName("Content-Length") == "content_length"
  {
    VarNameIs("Content-Length", "content_length");
  }

  lemma StatusHeaderName()
    ensures VarName("Status-Code") == "status_code"
  {
    VarNameIs("Status-Code", "status_code");
  }

  /** When the length and status variables of a response say its length and
      status: exactly when no header normalises to their names. The standard
      length header does, so its text is what a filter sees whenever it is
      present, and a header named Status-Code would do the same. */
  lemma HeadersShadow(lib: Library, view: ResponseView, length: int, m: Env)
    requires ResponseVars(lib, view, length, m)
    ensures m["content_length"] == Num(length) <==> !IsHeaderVar(view.header, "content_length")
    ensures m["status_code"] == Num(view.status) <==> !IsHeaderVar(view.header, "status_code")
    ensures "Content-Length" in view.header ==> m["content_length"].Str?
    ensures "Status-Code" in view.header ==> m["status_code"].Str?
  {
    hide VarName, Join, AllHeaders;
    LengthHeaderName();
    StatusHeaderName();
  }

  /** With one header of the name the variable is that header's text. */
  lemma LengthHeaderWins(lib: Library, view: ResponseView, length: int, m: Env, key: string)
    requires ResponseVars(lib, view, length, m) && key in view.header && VarName(key) == "content_length"
    requires forall other | other in view.header && VarName(other) == "content_length" :: other == key
    ensures m["content_length"] == Str(Join(view.header[key], " "))
  {
    hide VarName, Join, AllHeaders;
  }

  // ----- verdicts -------------------------------------------------------

  predicate All(results: seq<bool>) {
    forall i | 0 <= i < |results| :: results[i]
  }

  /** EvalBoolSlice: true iff the list is non-empty and all true. */
  method EvalBoolSlice(slice: seq<bool>) returns (result: bool)
    ensures result <==> slice != [] && forall i | 0 <= i < |slice| :: slice[i]
  {
    if |slice| == 0 {
      return false;
    }
    result := slice[0];
    var i := 0;
    while i < |slice|
      invariant 0 <= i <= |slice|
      invariant result <==> slice[0] && All(slice[..i])
    {
      result := result && slice[i];
      i := i + 1;
      assert slice[..i] == slice[..i - 1] + [slice[i - 1]];
    }
    assert slice[..i] == slice;
  }

  /** Match after the request filters. */
  function RequestVerdict(results: seq<bool>): Option<bool> {
    if results == [] then None else Some(All(results))
  }

  /** Match after the response filters, from the request's verdict. */
  function PairVerdict(verdict: Option<bool>, results: seq<bool>): Option<bool> {
    if results == [] then verdict
    else Some((verdict.Some? ==> verdict.value) && All(results))
  }

  /** The verdict lets a pair through iff every filter of both lists held. */
  lemma PassesIffAllTrue(request: seq<bool>, response: seq<bool>)
    ensures PairVerdict(RequestVerdict(request), response) != Some(false) <==> All(request) && All(response)
    ensures PairVerdict(RequestVerdict(request), response) == Some(true) <==>
            request + response != [] && All(request + response)
  {
    var both := request + response;
    forall i | 0 <= i < |both|
      ensures both[i] == if i < |request| then request[i] else response[i - |request|]
    {
    }
    if All(both) {
      assert forall i | 0 <= i < |request| :: both[i] == request[i];
      assert forall i | 0 <= i < |response| :: both[|request| + i] == response[i];
    }
  }
}
