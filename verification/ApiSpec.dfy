/** The value of an OpenAPI specification, and what adding one logged
    request/response pair does to it. A None where a pointer or map is
    expected is Go's nil. */
module ApiSpec {
  import opened Text
  import Filters

  /** A decoded JSON value; only an object's members matter. */
  datatype Json = Object(fields: map<string, Json>) | Array | String | Number | Boolean | Null

  /** A schema: its type, and the types of its properties. */
  datatype Schema = Schema(kind: string, properties: map<string, string>)

  type Decoder = string -> Option<Json>

  /** InterfaceToType. */
  function KindOf(j: Json): (r: string)
    ensures r == "object" <==> j.Object?
  {
    match j
    case Object(_) => "object"
    case Array => "array"
    case String => "string"
    case Number => "number"
    case Boolean => "boolean"
    case Null => "notfound"
  }

  function SchemaOf(j: Json): Schema {
    Schema(KindOf(j), if j.Object? then map k | k in j.fields :: KindOf(j.fields[k]) else map[])
  }

  /** A body as it stands before it is read. */
  datatype BodyView = BodyView(text: string, broken: bool)

  function SchemaFrom(decode: Decoder, b: BodyView): Option<Schema> {
    if b.broken then None
    else match decode(b.text) case None => None case Some(j) => Some(SchemaOf(j))
  }

  datatype Parameter = Parameter(name: string, place: string, description: string, required: bool, schema: Option<Schema>)

  /** One logged pair; query is non-empty for each of its keys. */
  datatype Reply = Reply(status: int, hasHeader: bool, ctype: string, body: Option<BodyView>)
  datatype Entry = Entry(host: string, path: string, verb: string, query: map<string, seq<string>>,
                         body: Option<BodyView>, reply: Option<Reply>)

  predicate GoodQuery(query: map<string, seq<string>>) {
    forall k | k in query :: query[k] != []
  }

  function QueryParam(query: map<string, seq<string>>, k: string): Parameter
    requires k in query && GoodQuery(query)
  {
    Parameter(k, "query", query[k][0], true, Some(Schema("string", map[])))
  }

  function BodyParam(s: Schema): Parameter {
    Parameter("body", "body", "", true, Some(s))
  }

  /** The parameters of a request, without their order: a body parameter if
      the body decodes, and one per query key, described by its first value. */
  function Params(decode: Decoder, query: map<string, seq<string>>, body: Option<BodyView>): set<Parameter>
    requires GoodQuery(query)
  {
    var s := if body.None? then None else SchemaFrom(decode, body.value);
    (if s.Some? then {BodyParam(s.value)} else {}) + set k | k in query :: QueryParam(query, k)
  }

  /** The parameters of a request, field by field. */
  lemma ParametersSpelled(decode: Decoder, query: map<string, seq<string>>, body: Option<BodyView>)
    requires GoodQuery(query)
    ensures var params := Params(decode, query, body);
            && (forall p | p in params :: p.required && p.schema.Some? && (p.place == "query" || p.place == "body"))
            && (forall p | p in params && p.place == "query" ::
                  p.name in query && p.description == query[p.name][0] && p.schema == Some(Schema("string", map[])))
            && (forall k | k in query :: exists p | p in params :: p.place == "query" && p.name == k)
            && (forall p | p in params && p.place == "body" ::
                  body.Some? && p.name == "body" && p.description == "" && p.schema == SchemaFrom(decode, body.value))
            && (body.Some? && SchemaFrom(decode, body.value).Some? ==> exists p | p in params :: p.place == "body")
  {
    var params := Params(decode, query, body);
    forall k | k in query
      ensures exists p | p in params :: p.place == "query" && p.name == k
    {
      assert QueryParam(query, k) in set q | q in query :: QueryParam(query, q);
      assert QueryParam(query, k) in params;
    }
    if body.Some? && SchemaFrom(decode, body.value).Some? {
      assert BodyParam(SchemaFrom(decode, body.value).value) in params;
    }
  }

  type Contents = map<string, Option<Option<Schema>>>
  type Responses = map<int, Option<Contents>>
  datatype MethodView = MethodView(params: set<Parameter>, responses: Option<Responses>)
  type Path = map<string, MethodView>
  type Paths = map<string, Path>

  /** The method in lower case, which is its key. */
  function Verb(e: Entry): (r: string)
    ensures |r| == |e.verb|
    ensures forall i | 0 <= i < |r| :: r[i] == if 'A' <= e.verb[i] <= 'Z' then e.verb[i] - 'A' + 'a' else e.verb[i]
  {
    Filters.Lower(e.verb)
  }

  // ----- building and updating ------------------------------------------

  function NewContent(decode: Decoder, r: Reply): Option<Option<Schema>> {
    if r.body.None? then None else Some(SchemaFrom(decode, r.body.value))
  }

  function NewResponse(decode: Decoder, r: Reply): Option<Contents> {
    if r.hasHeader then Some(map[r.ctype := NewContent(decode, r)]) else None
  }

  function NewMethod(decode: Decoder, e: Entry): MethodView
    requires GoodQuery(e.query)
  {
    MethodView(Params(decode, e.query, e.body),
               Some(if e.reply.None? then map[] else map[e.reply.value.status := NewResponse(decode, e.reply.value)]))
  }

  /** The update writes through no nil pointer and into no nil map. */
  predicate ResponseSafe(v: Option<Contents>, r: Reply) {
    r.hasHeader ==> v.Some? && (r.ctype in v.value && r.body.Some? ==> v.value[r.ctype].Some?)
  }

  predicate MethodSafe(m: MethodView, e: Entry) {
    e.reply.Some? ==>
      m.responses.Some? &&
      (e.reply.value.status in m.responses.value ==>
         ResponseSafe(m.responses.value[e.reply.value.status], e.reply.value))
  }

  predicate Safe(acc: Paths, e: Entry) {
    e.path in acc && Verb(e) in acc[e.path] ==> MethodSafe(acc[e.path][Verb(e)], e)
  }

  function UpdateResponse(decode: Decoder, v: Option<Contents>, r: Reply): Option<Contents>
    requires ResponseSafe(v, r)
  {
    if !r.hasHeader || (r.ctype in v.value && r.body.None?) then v
    else Some(v.value[r.ctype := NewContent(decode, r)])
  }

  function UpdateMethod(decode: Decoder, m: MethodView, e: Entry): MethodView
    requires GoodQuery(e.query) && MethodSafe(m, e)
  {
    MethodView(
      Params(decode, e.query, e.body),
      if e.reply.None? then m.responses
      else
        var r := e.reply.value;
        Some(m.responses.value[r.status := if r.status in m.responses.value
                                           then UpdateResponse(decode, m.responses.value[r.status], r)
                                           else NewResponse(decode, r)]))
  }

  function UpdatePath(decode: Decoder, p: Path, e: Entry): Path
    requires GoodQuery(e.query) && (Verb(e) in p ==> MethodSafe(p[Verb(e)], e))
  {
    p[Verb(e) := if Verb(e) in p then UpdateMethod(decode, p[Verb(e)], e) else NewMethod(decode, e)]
  }

  /** AddPath. */
  function Add(decode: Decoder, acc: Paths, e: Entry): Paths
    requires GoodQuery(e.query) && Safe(acc, e)
  {
    acc[e.path := if e.path in acc then UpdatePath(decode, acc[e.path], e) else map[Verb(e) := NewMethod(decode, e)]]
  }

  /** A log that can be folded without a nil dereference. */
  predicate SafeRun(decode: Decoder, acc: Paths, log: seq<Entry>)
    decreases |log|
  {
    log == [] || (GoodQuery(log[0].query) && Safe(acc, log[0]) && SafeRun(decode, Add(decode, acc, log[0]), log[1..]))
  }

  function Fold(decode: Decoder, acc: Paths, log: seq<Entry>): Paths
    requires SafeRun(decode, acc, log)
    decreases |log|
  {
    if log == [] then acc else Fold(decode, Add(decode, acc, log[0]), log[1..])
  }

  /** Entries are selected one by one, so their order is kept. */
  lemma {:induction false} ForHostAppend(a: seq<Entry>, b: seq<Entry>, api: string)
    ensures ForHost(a + b, api) == ForHost(a, api) + ForHost(b, api)
  {
    if a == [] {
      assert a + b == b;
    } else {
      var first := if a[0].host == api then [a[0]] else [];
      assert ForHost(a + b, api) == first + ForHost(a[1..] + b, api) by {
        assert (a + b)[1..] == a[1..] + b;
      }
      ForHostAppend(a[1..], b, api);
    }
  }

  /** Exactly those of the api host are selected, as often as they occur. */
  lemma {:induction false} ForHostSelects(log: seq<Entry>, api: string)
    ensures forall e: Entry :: multiset(ForHost(log, api))[e] == if e.host == api then multiset(log)[e] else 0
  {
    if log != [] {
      ForHostSelects(log[1..], api);
      assert log == [log[0]] + log[1..];
    }
  }

  /** The entries CreateSpec adds: those of the api host. */
  function ForHost(log: seq<Entry>, api: string): seq<Entry> {
    if log == [] then [] else (if log[0].host == api then [log[0]] else []) + ForHost(log[1..], api)
  }
}
