/** The OpenAPI accumulator as it is in memory: a tree of objects and maps
    updated in place, refining the value-level specification. */
module ApiHeap {
  import opened Text
  import Http
  import Filters
  import S = ApiSpec

  /** A logged pair with its one-shot body readers. */
  datatype Reply = Reply(status: int, hasHeader: bool, ctype: string, body: Http.Body?)
  datatype Entry = Entry(host: string, path: string, verb: string, query: map<string, seq<string>>,
                         body: Http.Body?, reply: Option<Reply>)

  function BodyView(b: Http.Body?): Option<S.BodyView>
    reads b
  {
    if b == null then None else Some(S.BodyView(b.rest, b.broken))
  }

  function ReplyView(r: Reply): S.Reply
    reads r.body
  {
    S.Reply(r.status, r.hasHeader, r.ctype, BodyView(r.body))
  }

  /** The readers of an entry. */
  function Readers(e: Entry): set<Http.Body> {
    (if e.body == null then {} else {e.body}) +
    (if e.reply.None? || e.reply.value.body == null then {} else {e.reply.value.body})
  }

  function EntryView(e: Entry): S.Entry
    reads Readers(e)
  {
    S.Entry(e.host, e.path, e.verb, e.query, BodyView(e.body),
            if e.reply.None? then None else Some(ReplyView(e.reply.value)))
  }

  /** Query values are never empty, and the two readers are distinct. */
  predicate GoodEntry(e: Entry) {
    S.GoodQuery(e.query) && (e.reply.Some? && e.body != null ==> e.body != e.reply.value.body)
  }

  /** The readers that adding an entry reads: not that of a response without
      header. */
  function Drained(e: Entry): set<Http.Body> {
    (if e.body == null then {} else {e.body}) +
    (if e.reply.None? || !e.reply.value.hasHeader || e.reply.value.body == null then {} else {e.reply.value.body})
  }

  twostate predicate ReadOnce(e: Entry)
    reads Readers(e)
  {
    && (forall b | b in Drained(e) :: b.rest == "" && b.drains == old(b.drains) + 1)
    && (forall b | b in Readers(e) - Drained(e) :: unchanged(b))
  }

  // ----- schemas and parameters -----------------------------------------

  method NewSchema(decode: S.Decoder, reader: Http.Body) returns (schema: Option<S.Schema>)
    modifies reader
    ensures schema == S.SchemaFrom(decode, old(S.BodyView(reader.rest, reader.broken)))
    ensures schema.None? <==> reader.broken || decode(old(reader.rest)).None?
    ensures schema.Some? ==>
              var j, kind := decode(old(reader.rest)).value, schema.value.kind;
              && (j.Object? ==> kind == "object") && (j.Array? ==> kind == "array")
              && (j.String? ==> kind == "string") && (j.Number? ==> kind == "number")
              && (j.Boolean? ==> kind == "boolean") && (j.Null? ==> kind == "notfound")
    ensures schema.Some? ==>
              var j, properties := decode(old(reader.rest)).value, schema.value.properties;
              && properties.Keys == (if j.Object? then j.fields.Keys else {})
              && forall k | k in properties ::
                   var m, kind := j.fields[k], properties[k];
                   && (m.Object? ==> kind == "object") && (m.Array? ==> kind == "array")
                   && (m.String? ==> kind == "string") && (m.Number? ==> kind == "number")
                   && (m.Boolean? ==> kind == "boolean") && (m.Null? ==> kind == "notfound")
    ensures reader.rest == "" && reader.drains == old(reader.drains) + 1
  {
    var body, ok := reader.ReadAll();
    if !ok {
      return None;
    }
    var data := decode(body);
    if data.None? {
      return None;
    }
    var dataType := S.KindOf(data.value);
    var properties: map<string, string> := map[];
    if dataType == "object" {
      assert data.value.Object?;
      var fields := data.value.fields;
      var keys := fields.Keys;
      while keys != {}
        invariant keys <= fields.Keys
        invariant properties.Keys == fields.Keys - keys
        invariant forall k | k in properties :: properties[k] == S.KindOf(fields[k])
      {
        var key :| key in keys;
        properties := properties[key := S.KindOf(fields[key])];
        keys := keys - {key};
      }
      assert properties == map k | k in fields :: S.KindOf(fields[k]);
    }
    schema := Some(S.Schema(dataType, properties));
  }

  /** The parameters of the query keys outside of keys. */
  ghost function Named(query: map<string, seq<string>>, keys: set<string>): set<S.Parameter>
    requires S.GoodQuery(query)
  {
    set k | k in query && k !in keys :: S.QueryParam(query, k)
  }

  /** params are first, and then one for each query key outside of keys. */
  ghost predicate Collected(query: map<string, seq<string>>, keys: set<string>, first: seq<S.Parameter>,
                            params: seq<S.Parameter>)
    requires S.GoodQuery(query)
  {
    && first <= params
    && (set p | p in params) == (set p | p in first) + Named(query, keys)
    && (forall i, j | 0 <= i < j < |params| :: params[i] != params[j])
    && (forall i | |first| <= i < |params| ::
          params[i].name in query && params[i].name !in keys && params[i] == S.QueryParam(query, params[i].name))
  }

  lemma CollectOne(query: map<string, seq<string>>, keys: set<string>, first: seq<S.Parameter>,
                   params: seq<S.Parameter>, key: string)
    requires S.GoodQuery(query) && key in keys && keys <= query.Keys && Collected(query, keys, first, params)
    requires forall i | 0 <= i < |first| :: first[i].place == "body"
    ensures Collected(query, keys - {key}, first, params + [S.QueryParam(query, key)])
  {
    var p := S.QueryParam(query, key);
    assert (set q | q in params + [p]) == (set q | q in params) + {p};
    assert Named(query, keys - {key}) == Named(query, keys) + {p};
  }

  /** Before the first query key, and after the last. */
  lemma CollectEnds(query: map<string, seq<string>>, first: seq<S.Parameter>, params: seq<S.Parameter>)
    requires S.GoodQuery(query) && |first| <= 1
    ensures Collected(query, query.Keys, first, first)
    ensures Collected(query, {}, first, params) ==>
              && (set p | p in params) == (set p | p in first) + (set k | k in query :: S.QueryParam(query, k))
              && (forall i, j | 0 <= i < j < |params| :: params[i] != params[j])
              && (forall i | 0 < i < |params| :: params[i].place == "query")
  {
    assert Named(query, query.Keys) == {};
    assert Named(query, {}) == set k | k in query :: S.QueryParam(query, k);
  }

  method NewParameters(decode: S.Decoder, body: Http.Body?, query: map<string, seq<string>>)
    returns (params: seq<S.Parameter>)
    requires S.GoodQuery(query)
    modifies body
    ensures (set p | p in params) == S.Params(decode, query, old(BodyView(body)))
    ensures forall i, j | 0 <= i < j < |params| :: params[i] != params[j]
    ensures forall i | 0 < i < |params| :: params[i].place == "query"
    ensures body != null ==> body.rest == "" && body.drains == old(body.drains) + 1
  {
    params := [];
    if body != null {
      var schema := NewSchema(decode, body);
      if schema.Some? {
        params := [S.BodyParam(schema.value)];
      }
    }
    ghost var first := params;
    assert |first| <= 1 && forall i | 0 <= i < |first| :: first[i].place == "body";
    assert (set p | p in first) + (set k | k in query :: S.QueryParam(query, k)) == S.Params(decode, query, old(BodyView(body)));
    CollectEnds(query, first, params);
    hide Collected, S.Params, S.QueryParam, S.SchemaFrom;
    var keys := query.Keys;
    while keys != {}
      invariant keys <= query.Keys && Collected(query, keys, first, params)
      modifies {}
    {
      var key :| key in keys;
      CollectOne(query, keys, first, params, key);
      params := params + [S.QueryParam(query, key)];
      keys := keys - {key};
    }
    CollectEnds(query, first, params);
  }

  // ----- contents -------------------------------------------------------

  class Content {
    var schema: Option<S.Schema>

    constructor (schema: Option<S.Schema>)
      ensures this.schema == schema
    {
      this.schema := schema;
    }

    method UpdateContent(decode: S.Decoder, body: Http.Body?)
      modifies this, body
      ensures schema == if body == null then old(schema) else S.SchemaFrom(decode, old(BodyView(body)).value)
      ensures body != null ==> body.rest == "" && body.drains == old(body.drains) + 1
    {
      if body != null {
        schema := NewSchema(decode, body);
      }
    }
  }

  function ContentView(c: Content?): Option<Option<S.Schema>>
    reads c
  {
    if c == null then None else Some(c.schema)
  }

  method NewContent(decode: S.Decoder, res: Reply) returns (content: Content?)
    modifies res.body
    ensures content == null || fresh(content)
    ensures ContentView(content) == S.NewContent(decode, old(ReplyView(res)))
    ensures res.body != null ==> res.body.rest == "" && res.body.drains == old(res.body.drains) + 1
  {
    content := null;
    if res.body != null {
      var schema := NewSchema(decode, res.body);
      content := new Content(schema);
    }
  }

  // ----- responses ------------------------------------------------------

  class Response {
    var content: map<string, Content?>
    ghost var Repr: set<object>

    /** Every content object is owned by exactly one content type. */
    ghost predicate Valid()
      reads this, Repr
      ensures Valid() ==> this in Repr
    {
      && this in Repr
      && (forall k | k in content && content[k] != null :: content[k] in Repr)
      && (forall k, l | k in content && l in content && k != l && content[k] != null :: content[k] != content[l])
    }

    function View(): S.Contents
      requires Valid()
      reads this, Repr
    {
      map k | k in content :: ContentView(content[k])
    }

    /** What nobody wrote is as it was. */
    twostate lemma Kept()
      requires old(Valid()) && forall o | o in old(Repr) :: unchanged(o)
      ensures Valid() && Repr == old(Repr) && View() == old(View())
    {
    }

    constructor (ctype: string, c: Content?)
      ensures Valid() && Repr == if c == null then {this} else {this, c}
      ensures View() == map[ctype := ContentView(c)]
    {
      content := map[ctype := c];
      Repr := {this};
      new;
      if c != null {
        Repr := Repr + {c};
      }
    }

    method UpdateResponse(decode: S.Decoder, res: Reply)
      requires Valid() && res.body !in Repr
      requires S.ResponseSafe(Some(View()), ReplyView(res))
      modifies Repr, res.body
      ensures Valid() && fresh(Repr - old(Repr))
      ensures Some(View()) == old(S.UpdateResponse(decode, Some(View()), ReplyView(res)))
      ensures res.hasHeader && res.body != null ==> res.body.rest == "" && res.body.drains == old(res.body.drains) + 1
      ensures !res.hasHeader && res.body != null ==> unchanged(res.body)
    {
      if res.hasHeader {
        if res.ctype !in content {
          var c := NewContent(decode, res);
          content := content[res.ctype := c];
          if c != null {
            Repr := Repr + {c};
          }
          assert View() == old(View())[res.ctype := ContentView(c)];
        } else if content[res.ctype] != null {
          content[res.ctype].UpdateContent(decode, res.body);
          assert View() == old(View())[res.ctype := ContentView(content[res.ctype])];
          assert res.body == null ==> View() == old(View());
        } else {
          assert res.body == null && View() == old(View());
        }
      }
    }
  }

  function ResponseView(r: Response?): Option<S.Contents>
    requires r != null ==> r.Valid()
    reads r, if r == null then {} else r.Repr
  {
    if r == null then None else Some(r.View())
  }

  method NewResponse(decode: S.Decoder, res: Reply) returns (r: Response?)
    modifies res.body
    ensures r != null ==> r.Valid() && fresh(r.Repr)
    ensures ResponseView(r) == S.NewResponse(decode, old(ReplyView(res)))
    ensures res.hasHeader && res.body != null ==> res.body.rest == "" && res.body.drains == old(res.body.drains) + 1
    ensures !res.hasHeader && res.body != null ==> unchanged(res.body)
  {
    r := null;
    if res.hasHeader {
      var c := NewContent(decode, res);
      r := new Response(res.ctype, c);
    }
  }

  // ----- methods --------------------------------------------------------

  class Method {
    var responses: Option<map<int, Response?>>
    var parameters: seq<S.Parameter>
    ghost var Repr: set<object>

    function Map(): map<int, Response?>
      reads this
    {
      if responses.None? then map[] else responses.value
    }

    /** The objects of different statuses are disjoint. */
    ghost predicate Valid()
      reads this, Repr
      ensures Valid() ==> this in Repr
    {
      && this in Repr
      && (forall k | k in Map() && Map()[k] != null ::
            Map()[k] in Repr && Map()[k].Repr <= Repr && this !in Map()[k].Repr && Map()[k].Valid())
      && (forall k, l | k in Map() && l in Map() && k != l && Map()[k] != null && Map()[l] != null ::
            Map()[k].Repr !! Map()[l].Repr)
    }

    function ResponsesView(): S.Responses
      requires Valid()
      reads this, Repr
    {
      map k | k in Map() :: ResponseView(Map()[k])
    }

    function View(): S.MethodView
      requires Valid()
      reads this, Repr
    {
      S.MethodView(set p | p in parameters, if responses.None? then None else Some(ResponsesView()))
    }

    /** What nobody wrote is as it was. */
    twostate lemma Kept()
      requires old(Valid()) && forall o | o in old(Repr) :: unchanged(o)
      ensures Valid() && Repr == old(Repr) && View() == old(View())
    {
    }

    constructor (parameters: seq<S.Parameter>)
      ensures responses == Some(map[]) && this.parameters == parameters
      ensures Valid() && Repr == {this}
    {
      responses, this.parameters := Some(map[]), parameters;
      Repr := {this};
    }

    /** Stores a response built for this method under its status. */
    method Put(status: int, r: Response?)
      requires Valid() && responses.Some?
      requires r != null ==> r.Valid() && r.Repr !! Repr
      modifies this
      ensures Valid() && Repr == old(Repr) + (if r == null then {} else r.Repr)
      ensures responses == Some(old(Map())[status := r]) && parameters == old(parameters)
      ensures ResponsesView() == old(ResponsesView())[status := ResponseView(r)]
    {
      responses := Some(responses.value[status := r]);
      if r != null {
        Repr := Repr + r.Repr;
      }
      forall k | k in old(Map()) && k != status
        ensures ResponseView(Map()[k]) == old(ResponseView(Map()[k]))
      {
      }
    }

    /** Updates the response of a known status in place. */
    method Touch(decode: S.Decoder, res: Reply)
      requires Valid() && res.body !in Repr
      requires res.status in Map() && Map()[res.status] != null
      requires S.ResponseSafe(ResponseView(Map()[res.status]), ReplyView(res))
      modifies Repr, res.body
      ensures Valid() && fresh(Repr - old(Repr))
      ensures responses == old(responses) && parameters == old(parameters)
      ensures ResponsesView() == old(ResponsesView())[res.status :=
                old(S.UpdateResponse(decode, ResponseView(Map()[res.status]), ReplyView(res)))]
      ensures res.hasHeader && res.body != null ==> res.body.rest == "" && res.body.drains == old(res.body.drains) + 1
      ensures !res.hasHeader && res.body != null ==> unchanged(res.body)
    {
      var r := Map()[res.status];
      ghost var before := r.Repr;
      r.UpdateResponse(decode, res);
      assert fresh(r.Repr - before);
      Repr := Repr + r.Repr;
      forall k | k in Map() && k != res.status && Map()[k] != null
        ensures Map()[k].Repr !! r.Repr && Map()[k].Valid()
        ensures ResponseView(Map()[k]) == old(ResponseView(Map()[k]))
      {
        assert old(Map()[k].Repr) !! before;
      }
    }

    /** The response part of UpdateMethod. */
    method UpdateResponses(decode: S.Decoder, res: Reply)
      requires Valid() && res.body !in Repr
      requires responses.Some?
      requires res.status in Map() ==> S.ResponseSafe(ResponseView(Map()[res.status]), ReplyView(res))
      modifies Repr, res.body
      ensures Valid() && fresh(Repr - old(Repr))
      ensures responses.Some? && parameters == old(parameters)
      ensures ResponsesView() == old(ResponsesView())[res.status :=
                if res.status in old(Map()) then old(S.UpdateResponse(decode, ResponseView(Map()[res.status]), ReplyView(res)))
                else S.NewResponse(decode, old(ReplyView(res)))]
      ensures res.hasHeader && res.body != null ==> res.body.rest == "" && res.body.drains == old(res.body.drains) + 1
      ensures !res.hasHeader && res.body != null ==> unchanged(res.body)
    {
      if res.status !in responses.value {
        var r := NewResponse(decode, res);
        Put(res.status, r);
      } else if responses.value[res.status] != null {
        Touch(decode, res);
      } else {
        assert ResponsesView() == old(ResponsesView())[res.status := None];
      }
    }

    /** UpdateMethod. */
    method UpdateMethod(decode: S.Decoder, e: Entry)
      requires Valid() && Readers(e) !! Repr && GoodEntry(e)
      requires S.MethodSafe(View(), EntryView(e))
      modifies Repr, Readers(e)
      ensures Valid() && fresh(Repr - old(Repr))
      ensures View() == S.UpdateMethod(decode, old(View()), old(EntryView(e)))
      ensures ReadOnce(e)
    {
      if e.reply.Some? {
        UpdateResponses(decode, e.reply.value);
      }
      label responsesDone:
      var parameters := NewParameters(decode, e.body, e.query);
      this.parameters := parameters;
      SameMap@responsesDone();
    }

    twostate lemma SameMap()
      requires old(Valid()) && forall o | o in old(Repr) && o != this :: unchanged(o)
      requires responses == old(responses) && Repr == old(Repr)
      ensures Valid() && ResponsesView() == old(ResponsesView())
    {
      forall k | k in Map() && Map()[k] != null
        ensures Map()[k].Valid() && Map()[k].Repr == old(Map()[k].Repr)
        ensures ResponseView(Map()[k]) == old(ResponseView(Map()[k]))
      {
        assert old(Map()[k].Repr <= Repr) && old(this !in Map()[k].Repr);
        Map()[k].Kept();
      }
    }
  }

  method NewMethod(decode: S.Decoder, e: Entry) returns (m: Method)
    requires GoodEntry(e)
    modifies Readers(e)
    ensures m.Valid() && fresh(m.Repr)
    ensures m.View() == S.NewMethod(decode, old(EntryView(e)))
    ensures ReadOnce(e)
  {
    hide Response.Valid, Response.View, S.NewResponse, S.Params;
    var parameters := NewParameters(decode, e.body, e.query);
    m := new Method(parameters);
    if e.reply.Some? {
      var r := NewResponse(decode, e.reply.value);
      m.Put(e.reply.value.status, r);
    }
  }

  // ----- paths ----------------------------------------------------------

  /** Go's Path: a map, shared by reference. */
  class PathItem {
    var methods: map<string, Method>
    ghost var Repr: set<object>

    /** The objects of different methods are disjoint. */
    ghost predicate Valid()
      reads this, Repr
      ensures Valid() ==> this in Repr
    {
      && this in Repr
      && (forall k | k in methods ::
            methods[k] in Repr && methods[k].Repr <= Repr && this !in methods[k].Repr && methods[k].Valid())
      && (forall k, l | k in methods && l in methods && k != l :: methods[k].Repr !! methods[l].Repr)
    }

    function View(): S.Path
      requires Valid()
      reads this, Repr
    {
      map k | k in methods :: methods[k].View()
    }

    /** What nobody wrote is as it was. */
    twostate lemma Kept()
      requires old(Valid()) && forall o | o in old(Repr) :: unchanged(o)
      ensures Valid() && Repr == old(Repr) && View() == old(View())
    {
    }

    constructor (verb: string, m: Method)
      requires m.Valid()
      ensures Valid() && Repr == {this} + m.Repr
      ensures View() == map[verb := m.View()]
    {
      methods := map[verb := m];
      Repr := {this} + m.Repr;
    }

    method Put(verb: string, m: Method)
      requires Valid() && m.Valid() && m.Repr !! Repr
      modifies this
      ensures Valid() && Repr == old(Repr) + m.Repr
      ensures View() == old(View())[verb := m.View()]
    {
      hide Method.Valid, Method.View, Response.Valid, Response.View;
      methods := methods[verb := m];
      Repr := Repr + m.Repr;
      forall k | k in old(methods) && k != verb
        ensures methods[k].Valid() && methods[k].Repr == old(methods[k].Repr) && methods[k].View() == old(methods[k].View())
      {
        assert old(methods[k].Repr <= Repr && this !in methods[k].Repr);
        methods[k].Kept();
      }
      assert m.Repr == old(m.Repr) && m.View() == old(m.View());
    }

    method Touch(decode: S.Decoder, verb: string, e: Entry)
      requires Valid() && Readers(e) !! Repr && GoodEntry(e)
      requires verb in methods && S.MethodSafe(methods[verb].View(), EntryView(e))
      modifies Repr, Readers(e)
      ensures Valid() && fresh(Repr - old(Repr))
      ensures methods == old(methods)
      ensures View() == old(View())[verb := S.UpdateMethod(decode, old(methods[verb].View()), old(EntryView(e)))]
      ensures ReadOnce(e)
    {
      // only the contracts of the lower levels are needed here
      hide S.UpdateMethod, S.MethodSafe, Method.Valid, Method.View, Response.Valid, Response.View, Readers, EntryView, ReadOnce;
      var m := methods[verb];
      m.UpdateMethod(decode, e);
      label updated:
      Repr := Repr + m.Repr;
      m.Kept@updated();
      Updated(verb);
    }

    /** After an update inside one method, whose new objects are taken over, the
        others are as they were. */
    twostate lemma Updated(verb: string)
      requires old(Valid()) && methods == old(methods) && verb in methods
      requires methods[verb].Valid() && fresh(methods[verb].Repr - old(methods[verb].Repr))
      requires Repr == old(Repr) + methods[verb].Repr
      requires forall o | o in old(Repr) && o != this && o !in old(methods[verb].Repr) :: unchanged(o)
      ensures Valid() && View() == old(View())[verb := methods[verb].View()]
    {
      forall k | k in methods && k != verb
        ensures methods[k].Valid() && methods[k].Repr == old(methods[k].Repr) && methods[k].Repr !! methods[verb].Repr
        ensures methods[k].View() == old(methods[k].View())
      {
        assert old(methods[k].Repr) !! old(methods[verb].Repr);
        assert old(methods[k].Repr <= Repr && this !in methods[k].Repr);
        methods[k].Kept();
      }
    }

    /** UpdatePath. */
    method UpdatePath(decode: S.Decoder, e: Entry)
      requires Valid() && Readers(e) !! Repr && GoodEntry(e)
      requires S.Verb(EntryView(e)) in View() ==> S.MethodSafe(View()[S.Verb(EntryView(e))], EntryView(e))
      modifies Repr, Readers(e)
      ensures Valid() && fresh(Repr - old(Repr))
      ensures View() == S.UpdatePath(decode, old(View()), old(EntryView(e)))
      ensures ReadOnce(e)
    {
      hide S.UpdateMethod, S.NewMethod, S.MethodSafe, Method.Valid, Method.View, Response.Valid, Response.View;
      var verb := Filters.Lower(e.verb);
      if verb !in methods {
        var m := NewMethod(decode, e);
        Put(verb, m);
      } else {
        Touch(decode, verb, e);
      }
    }
  }

  method NewPath(decode: S.Decoder, e: Entry) returns (p: PathItem)
    requires GoodEntry(e)
    modifies Readers(e)
    ensures p.Valid() && fresh(p.Repr)
    ensures var v := old(EntryView(e)); p.View() == map[S.Verb(v) := S.NewMethod(decode, v)]
    ensures ReadOnce(e)
  {
    var m := NewMethod(decode, e);
    p := new PathItem(Filters.Lower(e.verb), m);
  }

  // ----- the specification ----------------------------------------------

  class Spec {
    var title: string
    var servers: seq<string>  // their URLs; the descriptions are empty
    var paths: map<string, PathItem>
    ghost var Repr: set<object>

    /** The objects of different paths are disjoint: with the invariants below
        it, every object is reachable by exactly one key path. */
    ghost predicate Valid()
      reads this, Repr
      ensures Valid() ==> this in Repr
    {
      && this in Repr
      && (forall k | k in paths ::
            paths[k] in Repr && paths[k].Repr <= Repr && this !in paths[k].Repr && paths[k].Valid())
      && (forall k, l | k in paths && l in paths && k != l :: paths[k].Repr !! paths[l].Repr)
    }

    function View(): S.Paths
      requires Valid()
      reads this, Repr
    {
      map k | k in paths :: paths[k].View()
    }

    /** NewSpec. */
    constructor (logDir: string, api: string)
      ensures Valid() && Repr == {this} && View() == map[]
      ensures title == logDir && servers == [api]
    {
      title, servers, paths := logDir, [api], map[];
      Repr := {this};
    }

    /** The title and the servers are not part of the tree. */
    twostate lemma KeptTree()
      requires old(Valid()) && paths == old(paths) && Repr == old(Repr)
      requires forall o | o in old(Repr) && o != this :: unchanged(o)
      ensures Valid() && View() == old(View())
    {
      forall k | k in paths
        ensures paths[k].Valid() && paths[k].Repr == old(paths[k].Repr) && paths[k].View() == old(paths[k].View())
      {
        assert old(paths[k].Repr <= Repr && this !in paths[k].Repr);
        paths[k].Kept();
      }
    }

    /** UpdateSpec: the title grows, and the server is added unless present. */
    method UpdateSpec(logDir: string, api: string)
      modifies `title, `servers
      ensures title == old(title) + "," + logDir
      ensures servers == if api in old(servers) then old(servers) else old(servers) + [api]
    {
      title := title + "," + logDir;
      var i := 0;
      while i < |servers|
        invariant 0 <= i <= |servers| && api !in servers[..i]
      {
        if servers[i] == api {
          return;
        }
        i := i + 1;
      }
      assert servers[..i] == servers;
      servers := servers + [api];
    }

    method Put(path: string, p: PathItem)
      requires Valid() && p.Valid() && p.Repr !! Repr
      modifies `paths, `Repr
      ensures Valid() && Repr == old(Repr) + p.Repr
      ensures View() == old(View())[path := p.View()]
    {
      hide PathItem.Valid, PathItem.View, Method.Valid, Method.View, Response.Valid, Response.View;
      paths := paths[path := p];
      Repr := Repr + p.Repr;
      forall k | k in old(paths) && k != path
        ensures paths[k].Valid() && paths[k].Repr == old(paths[k].Repr) && paths[k].View() == old(paths[k].View())
      {
        assert old(paths[k].Repr <= Repr && this !in paths[k].Repr);
        paths[k].Kept();
      }
      assert p.Repr == old(p.Repr) && p.View() == old(p.View());
    }

    method Touch(decode: S.Decoder, e: Entry)
      requires Valid() && Readers(e) !! Repr && GoodEntry(e)
      requires e.path in paths
      requires S.Verb(EntryView(e)) in paths[e.path].View() ==>
                 S.MethodSafe(paths[e.path].View()[S.Verb(EntryView(e))], EntryView(e))
      modifies Repr, Readers(e)
      ensures Valid() && fresh(Repr - old(Repr))
      ensures title == old(title) && servers == old(servers)
      ensures View() == old(View())[e.path := S.UpdatePath(decode, old(paths[e.path].View()), old(EntryView(e)))]
      ensures ReadOnce(e)
    {
      // only the contracts of the lower levels are needed here
      hide PathItem.Valid, PathItem.View, S.UpdatePath, Method.Valid, Method.View, Response.Valid, Response.View;
      var p := paths[e.path];
      p.UpdatePath(decode, e);
      label updated:
      Repr := Repr + p.Repr;
      p.Kept@updated();
      Updated(e.path);
    }

    /** After an update inside one path, whose new objects are taken over, the
        others are as they were. */
    twostate lemma Updated(path: string)
      requires old(Valid()) && paths == old(paths) && path in paths
      requires paths[path].Valid() && fresh(paths[path].Repr - old(paths[path].Repr))
      requires Repr == old(Repr) + paths[path].Repr
      requires forall o | o in old(Repr) && o != this && o !in old(paths[path].Repr) :: unchanged(o)
      ensures Valid() && View() == old(View())[path := paths[path].View()]
    {
      forall k | k in paths && k != path
        ensures paths[k].Valid() && paths[k].Repr == old(paths[k].Repr) && paths[k].Repr !! paths[path].Repr
        ensures paths[k].View() == old(paths[k].View())
      {
        assert old(paths[k].Repr) !! old(paths[path].Repr);
        assert old(paths[k].Repr <= Repr && this !in paths[k].Repr);
        paths[k].Kept();
      }
    }

    /** AddPath does to the tree what Add does to its value, and reads every
        reader it reads exactly once. */
    method AddPath(decode: S.Decoder, e: Entry)
      requires Valid() && Readers(e) !! Repr && GoodEntry(e)
      requires S.Safe(View(), EntryView(e))
      modifies Repr, Readers(e)
      ensures Valid() && fresh(Repr - old(Repr))
      ensures title == old(title) && servers == old(servers)
      ensures View() == S.Add(decode, old(View()), old(EntryView(e)))
      ensures ReadOnce(e)
    {
      // only the contracts of the lower levels are needed here
      hide PathItem.Valid, PathItem.View, S.UpdatePath, Method.Valid, Method.View, Response.Valid, Response.View;
      if e.path !in paths {
        var p := NewPath(decode, e);
        Put(e.path, p);
      } else {
        Touch(decode, e);
      }
    }
  }
}
