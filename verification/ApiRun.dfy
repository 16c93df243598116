/** A run of the generator: read the logs, build or extend the specification,
    write it over the old file. */
module ApiRun {
  import opened Text
  import Http
  import H = ApiHeap
  import S = ApiSpec
  import L = ApiLaws
  import F = ApiFiles
  import LogSplit

  function AllReaders(list: seq<H.Entry>): set<Http.Body> {
    set i, b | 0 <= i < |list| && b in H.Readers(list[i]) :: b
  }

  ghost function Views(list: seq<H.Entry>): (r: seq<S.Entry>)
    reads AllReaders(list)
    ensures |r| == |list|
    ensures forall i | 0 <= i < |list| :: r[i] == H.EntryView(list[i])
  {
    if list == [] then []
    else
      assert forall i | 0 <= i < |list[1..]| :: list[1..][i] == list[i + 1];
      [H.EntryView(list[0])] + Views(list[1..])
  }

  /** Distinct entries have distinct readers. */
  ghost predicate Separate(list: seq<H.Entry>) {
    && (forall i | 0 <= i < |list| :: H.GoodEntry(list[i]))
    && (forall i, j | 0 <= i < j < |list| :: H.Readers(list[i]) !! H.Readers(list[j]))
  }

  /** No reader of the entry has been read. */
  ghost predicate Unread(e: H.Entry)
    reads H.Readers(e)
  {
    forall b | b in H.Readers(e) :: b.drains == 0
  }

  /** An entry of the api host has its readers read to their end exactly once
      (but not that of a response without header); another stays unread. */
  ghost predicate Handled(e: H.Entry, api: string)
    reads H.Readers(e)
  {
    forall b | b in H.Readers(e) ::
      if e.host == api && b in H.Drained(e) then b.drains == 1 && b.rest == "" else b.drains == 0
  }

  /** A list of entries, and the readers of it that a step may touch. */
  datatype Scope = Scope(list: seq<H.Entry>, touched: set<Http.Body>, api: string)

  /** Nobody touched the other readers. */
  twostate predicate Undisturbed(s: Scope)
    reads AllReaders(s.list)
  {
    forall b | b in AllReaders(s.list) && b !in s.touched :: b.rest == old(b.rest) && b.drains == old(b.drains)
  }

  twostate lemma OthersKept(s: Scope)
    requires Undisturbed(s)
    ensures forall j | 0 <= j < |s.list| && H.Readers(s.list[j]) !! s.touched ::
              H.EntryView(s.list[j]) == old(H.EntryView(s.list[j])) &&
              Unread(s.list[j]) == old(Unread(s.list[j])) && Handled(s.list[j], s.api) == old(Handled(s.list[j], s.api))
  {
    forall j | 0 <= j < |s.list| && H.Readers(s.list[j]) !! s.touched
      ensures H.EntryView(s.list[j]) == old(H.EntryView(s.list[j]))
      ensures Unread(s.list[j]) == old(Unread(s.list[j])) && Handled(s.list[j], s.api) == old(Handled(s.list[j], s.api))
    {
      var e := s.list[j];
      assert forall b | b in H.Readers(e) :: b in AllReaders(s.list) && b !in s.touched;
      assert H.EntryView(e) == old(H.EntryView(e));
    }
  }

  /** The body of CreateSpec's loop. */
  method AddOne(decode: S.Decoder, spec: H.Spec, e: H.Entry, api: string, ghost rest: seq<S.Entry>)
    requires spec.Valid() && H.GoodEntry(e) && spec.Repr !! H.Readers(e) && Unread(e)
    requires S.SafeRun(decode, spec.View(), S.ForHost([H.EntryView(e)] + rest, api))
    modifies spec.Repr, H.Readers(e)
    ensures spec.Valid() && fresh(spec.Repr - old(spec.Repr))
    ensures spec.title == old(spec.title) && spec.servers == old(spec.servers)
    ensures S.SafeRun(decode, spec.View(), S.ForHost(rest, api))
    ensures S.Fold(decode, spec.View(), S.ForHost(rest, api))
            == S.Fold(decode, old(spec.View()), old(S.ForHost([H.EntryView(e)] + rest, api)))
    ensures Handled(e, api)
  {
    hide H.Spec.Valid, H.Spec.View, S.Add, S.Safe;
    ghost var v := H.EntryView(e);
    assert ([v] + rest)[1..] == rest;
    if e.host == api {
      assert S.ForHost([v] + rest, api) == [v] + S.ForHost(rest, api);
      spec.AddPath(decode, e);
      assert forall b | b in H.Readers(e) && b !in H.Drained(e) :: b in H.Readers(e) - H.Drained(e);
    } else {
      assert S.ForHost([v] + rest, api) == [] + S.ForHost(rest, api) == S.ForHost(rest, api);
    }
  }

  /** One iteration, among the readers of all entries. */
  method AddOneOf(decode: S.Decoder, spec: H.Spec, list: seq<H.Entry>, i: nat, api: string, ghost rest: seq<S.Entry>)
    requires i < |list| && Separate(list) && Unread(list[i])
    requires spec.Valid() && forall j | 0 <= j < |list| :: spec.Repr !! H.Readers(list[j])
    requires S.SafeRun(decode, spec.View(), S.ForHost([H.EntryView(list[i])] + rest, api))
    modifies spec.Repr, H.Readers(list[i])
    ensures spec.Valid() && fresh(spec.Repr - old(spec.Repr))
    ensures spec.title == old(spec.title) && spec.servers == old(spec.servers)
    ensures S.SafeRun(decode, spec.View(), S.ForHost(rest, api))
    ensures S.Fold(decode, spec.View(), S.ForHost(rest, api))
            == S.Fold(decode, old(spec.View()), old(S.ForHost([H.EntryView(list[i])] + rest, api)))
    ensures forall j | 0 <= j < |list| :: spec.Repr !! H.Readers(list[j])
    ensures Handled(list[i], api)
    ensures forall j | 0 <= j < |list| && j != i ::
              H.EntryView(list[j]) == old(H.EntryView(list[j])) &&
              Unread(list[j]) == old(Unread(list[j])) && Handled(list[j], api) == old(Handled(list[j], api))
  {
    hide H.Spec.Valid, H.Spec.View, S.SafeRun, S.Fold, S.ForHost, H.EntryView, Handled, Unread;
    ghost var repr, all := spec.Repr, AllReaders(list);
    assert repr !! all;
    AddOne(decode, spec, list[i], api, rest);
    OthersKept(Scope(list, H.Readers(list[i]), api));
    assert forall j | 0 <= j < |list| && j != i :: H.Readers(list[j]) !! H.Readers(list[i]);
    forall k | 0 <= k < |list|
      ensures spec.Repr !! H.Readers(list[k])
    {
      assert H.Readers(list[k]) !! repr && H.Readers(list[k]) !! spec.Repr - repr;
    }
  }

  lemma ReadersAmong(list: seq<H.Entry>, i: nat)
    requires i < |list|
    ensures H.Readers(list[i]) <= AllReaders(list)
  {
  }

  /** The loop of CreateSpec: the tree ends as the fold of the api host's
      entries, in order, over what it was. */
  method AddAll(decode: S.Decoder, spec: H.Spec, list: seq<H.Entry>, api: string)
    requires spec.Valid() && Separate(list)
    requires forall i | 0 <= i < |list| :: spec.Repr !! H.Readers(list[i]) && Unread(list[i])
    requires S.SafeRun(decode, spec.View(), S.ForHost(Views(list), api))
    modifies spec.Repr, AllReaders(list)
    ensures spec.Valid() && fresh(spec.Repr - old(spec.Repr))
    ensures spec.View() == S.Fold(decode, old(spec.View()), old(S.ForHost(Views(list), api)))
    ensures spec.title == old(spec.title) && spec.servers == old(spec.servers)
    ensures forall i | 0 <= i < |list| :: Handled(list[i], api)
  {
    hide H.Spec.Valid, H.Spec.View, H.Readers, S.SafeRun, S.Fold, S.ForHost, H.EntryView;
    hide Handled, Unread, Separate, Views, AllReaders;
    ghost var views := Views(list);
    ghost var start := spec.View();
    var i := 0;
    assert views[0..] == views;
    while i < |list|
      invariant 0 <= i <= |list|
      invariant spec.Valid() && fresh(spec.Repr - old(spec.Repr))
      invariant spec.title == old(spec.title) && spec.servers == old(spec.servers)
      invariant forall j | 0 <= j < |list| :: spec.Repr !! H.Readers(list[j])
      invariant S.SafeRun(decode, spec.View(), S.ForHost(views[i..], api))
      invariant S.Fold(decode, spec.View(), S.ForHost(views[i..], api)) == S.Fold(decode, start, S.ForHost(views, api))
      invariant forall j | i <= j < |list| :: Unread(list[j]) && H.EntryView(list[j]) == views[j]
      invariant forall j | 0 <= j < i :: Handled(list[j], api)
    {
      assert views[i..] == [views[i]] + views[i + 1..];
      ReadersAmong(list, i);
      AddOneOf(decode, spec, list, i, api, views[i + 1..]);
      i := i + 1;
    }
    FoldNothing(decode, spec.View(), views[i..], api);
  }

  lemma FoldNothing(decode: S.Decoder, acc: S.Paths, log: seq<S.Entry>, api: string)
    requires log == []
    ensures S.SafeRun(decode, acc, S.ForHost(log, api)) && S.Fold(decode, acc, S.ForHost(log, api)) == acc
  {
  }

  /** The specification before the loop: new, or the loaded one extended. No
      logged body is touched. */
  method StartSpec(logDir: string, api: string, loaded: H.Spec?, ghost list: seq<H.Entry>) returns (s: H.Spec)
    requires loaded != null ==> loaded.Valid()
    requires forall i | 0 <= i < |list| :: Unread(list[i])
    modifies if loaded == null then {} else {loaded}
    ensures s.Valid() && if loaded == null then fresh(s) && s.Repr == {s} else s == loaded && s.Repr == old(loaded.Repr)
    ensures s.View() == if loaded == null then map[] else old(loaded.View())
    ensures s.servers == if loaded == null then [api] else L.AddServer(old(loaded.servers), api)
    ensures s.title == if loaded == null then logDir else old(loaded.title) + "," + logDir
    ensures Views(list) == old(Views(list)) && forall i | 0 <= i < |list| :: Unread(list[i])
  {
    hide H.PathItem.Valid, H.PathItem.View, H.EntryView, Unread, Handled;
    ghost var all := AllReaders(list);
    if loaded != null {
      loaded.UpdateSpec(logDir, api);
      loaded.KeptTree();
      s := loaded;
    } else {
      s := new H.Spec(logDir, api);
    }
    assert forall b | b in all :: b.rest == old(b.rest) && b.drains == old(b.drains);
    OthersKept(Scope(list, {}, api));
    assert Views(list) == old(Views(list));
  }

  /** ReadLog over the contents of the log files: each gives what parses of its
      request and of the part after its leftmost status line; a file of which
      neither parses ends the walk with an error. */
  method ReadLog<Q, R>(files: seq<string>, readRequest: string -> Option<Q>, readResponse: string -> Option<R>)
    returns (list: Option<seq<(Option<Q>, Option<R>)>>)
    ensures list.None? <==> exists i | 0 <= i < |files| ::
                              readRequest(files[i]).None? && readResponse(LogSplit.ReadBack(files[i])).None?
    ensures list.Some? ==> |list.value| == |files|
    ensures list.Some? ==> forall i | 0 <= i < |files| ::
              list.value[i] == (readRequest(files[i]), readResponse(LogSplit.ReadBack(files[i])))
  {
    var r: seq<(Option<Q>, Option<R>)> := [];
    var i := 0;
    while i < |files|
      invariant 0 <= i <= |files| && |r| == i
      invariant forall j | 0 <= j < i :: r[j] == (readRequest(files[j]), readResponse(LogSplit.ReadBack(files[j])))
      invariant forall j | 0 <= j < i :: r[j].0.Some? || r[j].1.Some?
    {
      var request, response := readRequest(files[i]), readResponse(LogSplit.ReadBack(files[i]));
      if request.None? && response.None? {
        return None;
      }
      r := r + [(request, response)];
      i := i + 1;
    }
    list := Some(r);
  }

  /** net/http's parsers of a request and of a response. */
  datatype Parser = Parser(request: string -> Option<S.Entry>, response: string -> Option<S.Reply>)

  /** The logged pair of a file whose request parses. */
  function EntryOf(p: Parser, file: string): S.Entry
    requires p.request(file).Some?
  {
    p.request(file).value.(reply := p.response(LogSplit.ReadBack(file)))
  }

  function EntriesOf(p: Parser, files: seq<string>): (r: seq<S.Entry>)
    requires forall i | 0 <= i < |files| :: p.request(files[i]).Some?
    ensures |r| == |files| && forall i | 0 <= i < |files| :: r[i] == EntryOf(p, files[i])
  {
    seq(|files|, i requires 0 <= i < |files| => EntryOf(p, files[i]))
  }

  /** Neither part of some file parses. */
  ghost predicate Unreadable(p: Parser, files: seq<string>) {
    exists i | 0 <= i < |files| :: p.request(files[i]).None? && p.response(LogSplit.ReadBack(files[i])).None?
  }

  /** A body reader as the parser leaves it: unread. */
  method Reader(b: Option<S.BodyView>) returns (body: Http.Body?)
    ensures body != null ==> fresh(body) && body.drains == 0
    ensures H.BodyView(body) == b
  {
    body := null;
    if b.Some? {
      body := new Http.Body(b.value.text, b.value.broken);
    }
  }

  /** A parsed pair in memory, with readers of its own. */
  method Materialise(e: S.Entry) returns (h: H.Entry)
    requires S.GoodQuery(e.query)
    ensures H.EntryView(h) == e && H.GoodEntry(h) && Unread(h) && forall b | b in H.Readers(h) :: fresh(b)
  {
    var body := Reader(e.body);
    var reply: Option<H.Reply> := None;
    if e.reply.Some? {
      var r := e.reply.value;
      var answer := Reader(r.body);
      reply := Some(H.Reply(r.status, r.hasHeader, r.ctype, answer));
    }
    h := H.Entry(e.host, e.path, e.verb, e.query, body, reply);
  }

  class Generator {
    const logDir: string
    const api: string
    var requestResponseList: seq<H.Entry>
    var spec: H.Spec?
    var output: Option<string>  // the content of the output file, if it exists

    constructor (logDir: string, api: string, output: Option<string>)
      ensures this.logDir == logDir && this.api == api && this.output == output
      ensures requestResponseList == [] && spec == null
    {
      this.logDir, this.api, this.output := logDir, api, output;
      requestResponseList, spec := [], null;
    }

    /** CreateSpec, given the tree the YAML decoder built if the output file
        exists: the specification of the old value extended by the log. */
    method CreateSpec(decode: S.Decoder, loaded: H.Spec?)
      requires loaded != null ==> loaded.Valid() && this !in loaded.Repr
      requires loaded != null ==>
                 forall i | 0 <= i < |requestResponseList| :: loaded.Repr !! H.Readers(requestResponseList[i])
      requires Separate(requestResponseList)
      requires forall i | 0 <= i < |requestResponseList| :: Unread(requestResponseList[i])
      requires S.SafeRun(decode, if loaded == null then map[] else loaded.View(),
                         S.ForHost(Views(requestResponseList), api))
      modifies `spec, AllReaders(requestResponseList), if loaded == null then {} else loaded.Repr
      ensures spec != null && spec.Valid()
      ensures spec.View() == S.Fold(decode, if loaded == null then map[] else old(loaded.View()),
                                    old(S.ForHost(Views(requestResponseList), api)))
      ensures spec.servers == if loaded == null then [api] else L.AddServer(old(loaded.servers), api)
      ensures spec.title == if loaded == null then logDir else old(loaded.title) + "," + logDir
      ensures forall i | 0 <= i < |requestResponseList| :: Handled(requestResponseList[i], api)
    {
      hide H.Spec.Valid, H.Spec.View, S.SafeRun, S.Fold, S.ForHost, H.EntryView, Handled, Unread, Separate;
      spec := StartSpec(logDir, api, loaded, requestResponseList);
      AddAll(decode, spec, requestResponseList, api);
    }

    /** The file is opened without truncation, so what the new text does not
        cover of the old content stays. */
    method WriteSpec(text: string)
      modifies `output
      ensures output == Some(F.Overwritten(old(output), text))
      ensures output == Some(text) <==> old(output).None? || |old(output).value| <= |text|
      ensures old(output).Some? && |text| < |old(output).value| ==>
                |output.value| == |old(output).value| && output.value[|text|..] == old(output).value[|text|..]
    {
      var old' := if output.Some? then output.value else "";
      output := Some(text + if |text| < |old'| then old'[|text|..] else "");
      assert text + "" == text;
    }

    /** The pairs read, kept in memory. Without a parsed request the source
        panics when it looks for the host. */
    method Keep(list: seq<(Option<S.Entry>, Option<S.Reply>)>)
      requires forall i | 0 <= i < |list| :: list[i].0.Some? && S.GoodQuery(list[i].0.value.query)
      modifies `requestResponseList
      ensures |requestResponseList| == |list| && Separate(requestResponseList)
      ensures forall i | 0 <= i < |list| ::
                H.EntryView(requestResponseList[i]) == list[i].0.value.(reply := list[i].1) && Unread(requestResponseList[i])
      ensures forall b | b in AllReaders(requestResponseList) :: fresh(b)
    {
      var r: seq<H.Entry> := [];
      var i := 0;
      while i < |list|
        invariant 0 <= i <= |list| && |r| == i && Separate(r)
        invariant forall j | 0 <= j < i :: H.EntryView(r[j]) == list[j].0.value.(reply := list[j].1) && Unread(r[j])
        invariant forall j, b | 0 <= j < i && b in H.Readers(r[j]) :: fresh(b)
        modifies {}
      {
        label before:
        var h := Materialise(list[i].0.value.(reply := list[i].1));
        forall j | 0 <= j < i
          ensures H.EntryView(r[j]) == list[j].0.value.(reply := list[j].1) && Unread(r[j])
          ensures H.Readers(r[j]) !! H.Readers(h)
        {
          assert H.EntryView(r[j]) == old@before(H.EntryView(r[j]));
        }
        r := r + [h];
        i := i + 1;
      }
      requestResponseList := r;
    }

    /** Generate: the run of the specification on the output file. It fails,
        and leaves the file alone, if some log file cannot be read at all or
        the old file does not load. `loaded` is the tree the YAML decoder built
        of the old file. */
    method Generate(decode: S.Decoder, codec: F.Codec, parser: Parser, files: seq<string>, loaded: H.Spec?) returns (ok: bool)
      requires requestResponseList == []
      requires output.None? ==> loaded == null
      requires output.Some? ==> (loaded == null <==> codec.load(output.value).None?)
      requires loaded != null ==> loaded.Valid() && this !in loaded.Repr
      requires loaded != null ==> codec.load(output.value) == Some(F.Document(loaded.title, loaded.servers, loaded.View()))
      requires forall i | 0 <= i < |files| && parser.request(files[i]).Some? :: S.GoodQuery(parser.request(files[i]).value.query)
      requires Unreadable(parser, files) || forall i | 0 <= i < |files| :: parser.request(files[i]).Some?
      requires !Unreadable(parser, files) ==>
                 S.SafeRun(decode, if loaded == null then map[] else loaded.View(), S.ForHost(EntriesOf(parser, files), api))
      modifies this, if loaded == null then {} else loaded.Repr
      ensures ok <==> !Unreadable(parser, files) && (old(output).Some? ==> codec.load(old(output).value).Some?)
      ensures ok ==> output == F.RunOnce(codec, decode, old(output), F.Run(logDir, api, EntriesOf(parser, files)))
      ensures ok ==> output.Some?
      ensures !ok ==> output == old(output)
    {
      hide S.SafeRun, S.Fold, S.ForHost, H.Spec.Valid, H.Spec.View, H.Readers, H.EntryView;
      hide Unread, Separate, Handled, AllReaders, S.GoodQuery, LogSplit.ReadBack, L.AddServer;
      var list := ReadLog(files, parser.request, parser.response);
      if list.None? {
        return false;
      }
      assert !Unreadable(parser, files);
      Keep(list.value);
      if output.Some? && loaded == null {
        return false;
      }
      assert Views(requestResponseList) == EntriesOf(parser, files);
      if loaded != null {
        forall i | 0 <= i < |requestResponseList|
          ensures loaded.Repr !! H.Readers(requestResponseList[i])
        {
          ReadersAmong(requestResponseList, i);
        }
      }
      CreateSpec(decode, loaded);
      WriteSpec(codec.encode(F.Document(spec.title, spec.servers, spec.View())));
      ok := true;
    }
  }
}
