/** What folding a log into an OpenAPI specification yields, and the laws of
    incremental runs. */
module ApiLaws {
  import opened Text
  import opened ApiSpec

  // ----- lookups --------------------------------------------------------

  predicate HasMethod(acc: Paths, path: string, verb: string) {
    path in acc && verb in acc[path]
  }

  function ParamsAt(acc: Paths, path: string, verb: string): Option<set<Parameter>> {
    if HasMethod(acc, path, verb) then Some(acc[path][verb].params) else None
  }

  predicate HasStatus(acc: Paths, path: string, verb: string, status: int) {
    HasMethod(acc, path, verb) && acc[path][verb].responses.Some? && status in acc[path][verb].responses.value
  }

  predicate HasType(acc: Paths, path: string, verb: string, status: int, ctype: string) {
    HasStatus(acc, path, verb, status) &&
    acc[path][verb].responses.value[status].Some? && ctype in acc[path][verb].responses.value[status].value
  }

  /** The schema field of a content object, if there is a content object. */
  function SchemaAt(acc: Paths, path: string, verb: string, status: int, ctype: string): Option<Option<Schema>> {
    if HasType(acc, path, verb, status, ctype) then acc[path][verb].responses.value[status].value[ctype] else None
  }

  // ----- what a log says ------------------------------------------------

  predicate Hits(e: Entry, path: string, verb: string) {
    e.path == path && Verb(e) == verb
  }

  predicate HitsStatus(e: Entry, path: string, verb: string, status: int) {
    Hits(e, path, verb) && e.reply.Some? && e.reply.value.status == status
  }

  predicate HitsType(e: Entry, path: string, verb: string, status: int, ctype: string) {
    HitsStatus(e, path, verb, status) && e.reply.value.hasHeader && e.reply.value.ctype == ctype
  }

  predicate HitsBody(e: Entry, path: string, verb: string, status: int, ctype: string) {
    HitsType(e, path, verb, status, ctype) && e.reply.value.body.Some?
  }

  /** The parameters of the last request for a path and method. */
  function LastParams(decode: Decoder, log: seq<Entry>, path: string, verb: string): Option<set<Parameter>>
    requires forall e | e in log :: GoodQuery(e.query)
  {
    if log == [] then None
    else
      var later := LastParams(decode, log[1..], path, verb);
      if later.Some? then later
      else if Hits(log[0], path, verb) then Some(Params(decode, log[0].query, log[0].body))
      else None
  }

  /** The schema of the last response body for a path, method, status and type. */
  function LastSchema(decode: Decoder, log: seq<Entry>, path: string, verb: string, status: int, ctype: string):
    Option<Option<Schema>>
  {
    if log == [] then None
    else
      var later := LastSchema(decode, log[1..], path, verb, status, ctype);
      if later.Some? then later
      else if HitsBody(log[0], path, verb, status, ctype) then Some(SchemaFrom(decode, log[0].reply.value.body.value))
      else None
  }

  // ----- one entry ------------------------------------------------------

  lemma AddKeys(decode: Decoder, acc: Paths, e: Entry, path: string, verb: string)
    requires GoodQuery(e.query) && Safe(acc, e)
    ensures var r := Add(decode, acc, e);
            && (path in r <==> path in acc || e.path == path)
            && (HasMethod(r, path, verb) <==> HasMethod(acc, path, verb) || Hits(e, path, verb))
            && ParamsAt(r, path, verb) == (if Hits(e, path, verb) then Some(Params(decode, e.query, e.body))
                                           else ParamsAt(acc, path, verb))
            && (!Hits(e, path, verb) && HasMethod(acc, path, verb) ==> r[path][verb] == acc[path][verb])
  {
  }

  lemma AddStatus(decode: Decoder, acc: Paths, e: Entry, path: string, verb: string, status: int, ctype: string)
    requires GoodQuery(e.query) && Safe(acc, e)
    ensures var r := Add(decode, acc, e);
            && (HasStatus(r, path, verb, status) <==> HasStatus(acc, path, verb, status) || HitsStatus(e, path, verb, status))
            && (HasType(r, path, verb, status, ctype) <==>
                  HasType(acc, path, verb, status, ctype) || HitsType(e, path, verb, status, ctype))
            && SchemaAt(r, path, verb, status, ctype) ==
                 if HitsBody(e, path, verb, status, ctype) then Some(SchemaFrom(decode, e.reply.value.body.value))
                 else SchemaAt(acc, path, verb, status, ctype)
  {
  }

  // ----- a whole log ----------------------------------------------------

  ghost predicate Seen(log: seq<Entry>, f: Entry -> bool) {
    exists e | e in log :: f(e)
  }

  lemma Head(log: seq<Entry>, f: Entry -> bool)
    requires log != []
    ensures Seen(log, f) <==> f(log[0]) || Seen(log[1..], f)
  {
  }

  lemma {:induction false} SafeRunQueries(decode: Decoder, acc: Paths, log: seq<Entry>)
    requires SafeRun(decode, acc, log)
    ensures forall e | e in log :: GoodQuery(e.query)
    decreases |log|
  {
    if log != [] {
      SafeRunQueries(decode, Add(decode, acc, log[0]), log[1..]);
      assert log == [log[0]] + log[1..];
    }
  }

  /** The key sets, from any starting specification. */
  lemma {:induction false} FoldKeys(decode: Decoder, acc: Paths, log: seq<Entry>, path: string, verb: string, status: int, ctype: string)
    requires SafeRun(decode, acc, log)
    ensures var r := Fold(decode, acc, log);
            && (path in r <==> path in acc || Seen(log, (e: Entry) => e.path == path))
            && (HasMethod(r, path, verb) <==> HasMethod(acc, path, verb) || Seen(log, e => Hits(e, path, verb)))
            && (HasStatus(r, path, verb, status) <==>
                  HasStatus(acc, path, verb, status) || Seen(log, e => HitsStatus(e, path, verb, status)))
            && (HasType(r, path, verb, status, ctype) <==>
                  HasType(acc, path, verb, status, ctype) || Seen(log, e => HitsType(e, path, verb, status, ctype)))
    decreases |log|
  {
    if log != [] {
      FoldKeys(decode, Add(decode, acc, log[0]), log[1..], path, verb, status, ctype);
      AddKeys(decode, acc, log[0], path, verb);
      AddStatus(decode, acc, log[0], path, verb, status, ctype);
      Head(log, (e: Entry) => e.path == path);
      Head(log, e => Hits(e, path, verb));
      Head(log, e => HitsStatus(e, path, verb, status));
      Head(log, e => HitsType(e, path, verb, status, ctype));
    }
  }

  /** The values: the last writer of each key wins. */
  lemma {:induction false} FoldValues(decode: Decoder, acc: Paths, log: seq<Entry>, path: string, verb: string, status: int, ctype: string)
    requires SafeRun(decode, acc, log) && forall e | e in log :: GoodQuery(e.query)
    ensures var r := Fold(decode, acc, log);
            && ParamsAt(r, path, verb) ==
                 (var last := LastParams(decode, log, path, verb); if last.Some? then last else ParamsAt(acc, path, verb))
            && SchemaAt(r, path, verb, status, ctype) ==
                 (var last := LastSchema(decode, log, path, verb, status, ctype);
                  if last.Some? then last else SchemaAt(acc, path, verb, status, ctype))
    decreases |log|
  {
    if log != [] {
      assert forall e | e in log[1..] :: e in log;
      FoldValues(decode, Add(decode, acc, log[0]), log[1..], path, verb, status, ctype);
      AddKeys(decode, acc, log[0], path, verb);
      AddStatus(decode, acc, log[0], path, verb, status, ctype);
    }
  }

  /** The specification of a log from an empty start, at every level: the keys
      are exactly those seen, and the last writer's value is what they hold. */
  lemma SpecOfLog(decode: Decoder, log: seq<Entry>, path: string, verb: string, status: int, ctype: string)
    requires SafeRun(decode, map[], log) && forall e | e in log :: GoodQuery(e.query)
    ensures var r := Fold(decode, map[], log);
            && (path in r <==> exists e | e in log :: e.path == path)
            && (HasMethod(r, path, verb) <==> exists e | e in log :: Hits(e, path, verb))
            && (HasStatus(r, path, verb, status) <==> exists e | e in log :: HitsStatus(e, path, verb, status))
            && (HasType(r, path, verb, status, ctype) <==> exists e | e in log :: HitsType(e, path, verb, status, ctype))
            && ParamsAt(r, path, verb) == LastParams(decode, log, path, verb)
            && SchemaAt(r, path, verb, status, ctype) == LastSchema(decode, log, path, verb, status, ctype)
  {
    FoldKeys(decode, map[], log, path, verb, status, ctype);
    FoldValues(decode, map[], log, path, verb, status, ctype);
  }

  // ----- no nil dereference ---------------------------------------------

  /** What ReadLog can deliver: a parsed response has a header and a body. */
  predicate WellRead(e: Entry) {
    GoodQuery(e.query) && (e.reply.Some? ==> e.reply.value.hasHeader && e.reply.value.body.Some?)
  }

  /** No nil at any level. */
  ghost predicate Full(acc: Paths) {
    forall p, v | p in acc && v in acc[p] :: FullMethod(acc[p][v])
  }

  ghost predicate FullMethod(m: MethodView) {
    m.responses.Some? && forall s | s in m.responses.value :: FullResponse(m.responses.value[s])
  }

  ghost predicate FullResponse(v: Option<Contents>) {
    v.Some? && forall t | t in v.value :: v.value[t].Some?
  }

  lemma FullAdd(decode: Decoder, acc: Paths, e: Entry)
    requires Full(acc) && WellRead(e)
    ensures Safe(acc, e) && Full(Add(decode, acc, e))
  {
  }

  /** From a new specification, no log that ReadLog can deliver panics. */
  lemma {:induction false} ReadLogsAreSafe(decode: Decoder, acc: Paths, log: seq<Entry>)
    requires Full(acc) && forall e | e in log :: WellRead(e)
    ensures SafeRun(decode, acc, log) && Full(Fold(decode, acc, log))
    decreases |log|
  {
    if log != [] {
      assert forall e | e in log[1..] :: e in log;
      FullAdd(decode, acc, log[0]);
      ReadLogsAreSafe(decode, Add(decode, acc, log[0]), log[1..]);
    }
  }

  // ----- independence ---------------------------------------------------

  lemma SafeAfterOther(decode: Decoder, acc: Paths, d: Entry, e: Entry)
    requires GoodQuery(d.query) && Safe(acc, d) && !Hits(d, e.path, Verb(e))
    ensures Safe(acc, e) <==> Safe(Add(decode, acc, d), e)
  {
  }

  /** Entries for different (path, method) pairs commute, and each leaves the
      other's object alone. */
  lemma EntriesCommute(decode: Decoder, acc: Paths, d: Entry, e: Entry)
    requires GoodQuery(d.query) && GoodQuery(e.query) && Safe(acc, d) && Safe(acc, e)
    requires !Hits(d, e.path, Verb(e))
    ensures Safe(Add(decode, acc, d), e) && Safe(Add(decode, acc, e), d)
    ensures Add(decode, Add(decode, acc, d), e) == Add(decode, Add(decode, acc, e), d)
  {
    SafeAfterOther(decode, acc, d, e);
    SafeAfterOther(decode, acc, e, d);
    if d.path == e.path {
      SamePathCommutes(decode, acc, d, e);
    } else {
      OtherPathsCommute(decode, acc, d, e);
    }
  }

  lemma SamePathCommutes(decode: Decoder, acc: Paths, d: Entry, e: Entry)
    requires GoodQuery(d.query) && GoodQuery(e.query) && Safe(acc, d) && Safe(acc, e)
    requires d.path == e.path && Verb(d) != Verb(e)
    requires Safe(Add(decode, acc, d), e) && Safe(Add(decode, acc, e), d)
    ensures Add(decode, Add(decode, acc, d), e) == Add(decode, Add(decode, acc, e), d)
  {
    hide UpdateMethod, NewMethod, MethodSafe;
    var p := if d.path in acc then acc[d.path] else map[];
    var md := if Verb(d) in p then UpdateMethod(decode, p[Verb(d)], d) else NewMethod(decode, d);
    var me := if Verb(e) in p then UpdateMethod(decode, p[Verb(e)], e) else NewMethod(decode, e);
    var both := p[Verb(d) := md][Verb(e) := me];
    assert both == p[Verb(e) := me][Verb(d) := md];
    assert Add(decode, Add(decode, acc, d), e) == acc[d.path := both];
    assert Add(decode, Add(decode, acc, e), d) == acc[d.path := both];
  }

  lemma OtherPathsCommute(decode: Decoder, acc: Paths, d: Entry, e: Entry)
    requires GoodQuery(d.query) && GoodQuery(e.query) && Safe(acc, d) && Safe(acc, e)
    requires d.path != e.path
    requires Safe(Add(decode, acc, d), e) && Safe(Add(decode, acc, e), d)
    ensures Add(decode, Add(decode, acc, d), e) == Add(decode, Add(decode, acc, e), d)
  {
    hide UpdatePath, NewMethod, MethodSafe;
  }

  // ----- incremental runs -----------------------------------------------

  lemma {:induction false} FoldAppend(decode: Decoder, acc: Paths, a: seq<Entry>, b: seq<Entry>)
    ensures SafeRun(decode, acc, a + b) <==> SafeRun(decode, acc, a) && SafeRun(decode, Fold(decode, acc, a), b)
    ensures SafeRun(decode, acc, a + b) ==> Fold(decode, acc, a + b) == Fold(decode, Fold(decode, acc, a), b)
    decreases |a|
  {
    if a == [] {
      assert a + b == b;
    } else {
      assert (a + b)[1..] == a[1..] + b;
      if GoodQuery(a[0].query) && Safe(acc, a[0]) {
        FoldAppend(decode, Add(decode, acc, a[0]), a[1..], b);
      }
    }
  }

  /** Saving and loading: an empty Responses map is omitted, so it comes back
      as a nil map. */
  function Reloaded(acc: Paths): Paths {
    map p | p in acc :: map v | v in acc[p] :: ReloadedMethod(acc[p][v])
  }

  function ReloadedMethod(m: MethodView): MethodView {
    if m.responses == Some(map[]) then m.(responses := None) else m
  }

  /** a and b differ at most in empty Responses maps that are nil in b. */
  ghost predicate Similar(a: Paths, b: Paths) {
    && a.Keys == b.Keys
    && forall p | p in a :: a[p].Keys == b[p].Keys && forall v | v in a[p] :: SimilarMethod(a[p][v], b[p][v])
  }

  predicate SimilarMethod(m: MethodView, n: MethodView) {
    m == n || (m.responses == Some(map[]) && n == m.(responses := None))
  }

  /** A response for a method whose Responses map is nil. */
  predicate WritesNil(b: Paths, e: Entry) {
    HasMethod(b, e.path, Verb(e)) && b[e.path][Verb(e)].responses.None? && e.reply.Some?
  }

  lemma SimilarAdd(decode: Decoder, a: Paths, b: Paths, e: Entry)
    requires Similar(a, b) && GoodQuery(e.query) && Safe(a, e)
    ensures Safe(b, e) <==> !WritesNil(b, e)
    ensures Safe(b, e) ==> Similar(Add(decode, a, e), Add(decode, b, e))
    ensures Safe(b, e) ==> forall f: Entry :: WritesNil(Add(decode, b, e), f) <==> WritesNil(b, f)
  {
    if Safe(b, e) {
      var x, y := Add(decode, a, e), Add(decode, b, e);
      forall p, v | HasMethod(x, p, v)
        ensures HasMethod(y, p, v) && SimilarMethod(x[p][v], y[p][v])
      {
        AddKeys(decode, a, e, p, v);
        AddKeys(decode, b, e, p, v);
      }
      forall p, v | HasMethod(y, p, v)
        ensures HasMethod(x, p, v)
      {
        AddKeys(decode, a, e, p, v);
        AddKeys(decode, b, e, p, v);
      }
      SimilarFrom(x, y);
      forall f: Entry
        ensures WritesNil(y, f) <==> WritesNil(b, f)
      {
        AddKeys(decode, b, e, f.path, Verb(f));
      }
    }
  }

  lemma SimilarFrom(x: Paths, y: Paths)
    requires x.Keys == y.Keys
    requires forall p, v | HasMethod(x, p, v) :: HasMethod(y, p, v) && SimilarMethod(x[p][v], y[p][v])
    requires forall p, v | HasMethod(y, p, v) :: HasMethod(x, p, v)
    ensures Similar(x, y)
  {
  }

  lemma {:induction false} SimilarRun(decode: Decoder, a: Paths, b: Paths, log: seq<Entry>)
    requires Similar(a, b) && SafeRun(decode, a, log)
    ensures SafeRun(decode, b, log) <==> forall e | e in log :: !WritesNil(b, e)
    ensures SafeRun(decode, b, log) ==> Similar(Fold(decode, a, log), Fold(decode, b, log))
    decreases |log|
  {
    if log != [] {
      SimilarAdd(decode, a, b, log[0]);
      assert log == [log[0]] + log[1..];
      if Safe(b, log[0]) {
        SimilarRun(decode, Add(decode, a, log[0]), Add(decode, b, log[0]), log[1..]);
      }
    }
  }

  lemma SimilarReloads(a: Paths, b: Paths)
    requires Similar(a, b)
    ensures Reloaded(a) == Reloaded(b)
  {
    forall p | p in a
      ensures Reloaded(a)[p] == Reloaded(b)[p]
    {
      assert forall v | v in a[p] :: SimilarMethod(a[p][v], b[p][v]);
    }
  }

  lemma SimilarToReloaded(a: Paths)
    ensures Similar(a, Reloaded(a))
  {
  }

  /** A method that the first run saw, but never with a response. */
  ghost predicate NeverAnswered(log: seq<Entry>, path: string, verb: string) {
    (exists e | e in log :: Hits(e, path, verb)) && forall e | e in log && Hits(e, path, verb) :: e.reply.None?
  }

  /** The split law: folding a log, saving, reloading and folding another gives
      the same saved specification as folding both at once; it panics exactly
      when a method never answered in the first log gains a response. */
  lemma SplitLaw(decode: Decoder, l1: seq<Entry>, l2: seq<Entry>)
    requires forall e | e in l1 + l2 :: WellRead(e)
    ensures SafeRun(decode, map[], l1) && SafeRun(decode, map[], l1 + l2)
    ensures var saved := Reloaded(Fold(decode, map[], l1));
            && (SafeRun(decode, saved, l2) <==>
                  !exists e | e in l2 :: e.reply.Some? && NeverAnswered(l1, e.path, Verb(e)))
            && (SafeRun(decode, saved, l2) ==>
                  Reloaded(Fold(decode, saved, l2)) == Reloaded(Fold(decode, map[], l1 + l2)))
  {
    assert forall e | e in l1 :: e in l1 + l2;
    ReadLogsAreSafe(decode, map[], l1);
    ReadLogsAreSafe(decode, map[], l1 + l2);
    FoldAppend(decode, map[], l1, l2);
    var acc := Fold(decode, map[], l1);
    var saved := Reloaded(acc);
    SimilarToReloaded(acc);
    SimilarRun(decode, acc, saved, l2);
    forall e: Entry
      ensures WritesNil(saved, e) <==> e.reply.Some? && NeverAnswered(l1, e.path, Verb(e))
    {
      NilIffNeverAnswered(decode, l1, e.path, Verb(e));
    }
    if SafeRun(decode, saved, l2) {
      SimilarReloads(Fold(decode, acc, l2), Fold(decode, saved, l2));
    }
  }

  lemma NilIffNeverAnswered(decode: Decoder, log: seq<Entry>, path: string, verb: string)
    requires SafeRun(decode, map[], log) && Full(Fold(decode, map[], log))
    ensures var saved := Reloaded(Fold(decode, map[], log));
            HasMethod(saved, path, verb) && saved[path][verb].responses.None? <==> NeverAnswered(log, path, verb)
  {
    var acc := Fold(decode, map[], log);
    SafeRunQueries(decode, map[], log);
    SpecOfLog(decode, log, path, verb, 0, "");
    if HasMethod(acc, path, verb) {
      assert FullMethod(acc[path][verb]);
      var rs := acc[path][verb].responses.value;
      forall s: int
        ensures s in rs <==> exists e | e in log :: HitsStatus(e, path, verb, s)
      {
        SpecOfLog(decode, log, path, verb, s, "");
        assert HasStatus(acc, path, verb, s) <==> s in rs;
      }
      forall e | e in log && Hits(e, path, verb)
        ensures e.reply.Some? ==> e.reply.value.status in rs
      {
        assert e.reply.Some? ==> HitsStatus(e, path, verb, e.reply.value.status);
      }
      if rs != map[] {
        var s :| s in rs;
        var e :| e in log && HitsStatus(e, path, verb, s);
        assert Hits(e, path, verb) && e.reply.Some?;
      }
    }
  }

  /** A GET of /a, logged with or without its response. */
  function GetA(query: map<string, seq<string>>, reply: Option<Reply>): Entry {
    Entry("host", "/a", "GET", query, None, reply)
  }

  /** A failing input of the split law: two runs that together are safe. The
      first logs a request alone, the second the same with its response, and
      panics on what the first saved. */
  lemma SplitPanics(decode: Decoder, status: int, ctype: string, body: BodyView)
    ensures var asked, answered := GetA(map[], None), GetA(map[], Some(Reply(status, true, ctype, Some(body))));
            && SafeRun(decode, map[], [asked, answered])
            && SafeRun(decode, map[], [asked])
            && !SafeRun(decode, Reloaded(Fold(decode, map[], [asked])), [answered])
  {
    var asked, answered := GetA(map[], None), GetA(map[], Some(Reply(status, true, ctype, Some(body))));
    assert [asked] + [answered] == [asked, answered];
    SplitLaw(decode, [asked], [answered]);
    assert asked in [asked] && answered in [answered];
    assert NeverAnswered([asked], "/a", Verb(answered));
  }

  /** The logs of several runs, one after the other. */
  function Joined(logs: seq<seq<Entry>>): seq<Entry> {
    if logs == [] then [] else Joined(logs[..|logs| - 1]) + logs[|logs| - 1]
  }

  /** The specification saved by the last of several runs, each starting from
      what the one before it saved; None if one of them panicked. */
  function Incremental(decode: Decoder, logs: seq<seq<Entry>>): Option<Paths>
    decreases |logs|
  {
    if logs == [] then Some(map[])
    else
      match Incremental(decode, logs[..|logs| - 1])
      case None => None
      case Some(saved) =>
        var log := logs[|logs| - 1];
        if SafeRun(decode, saved, log) then Some(Reloaded(Fold(decode, saved, log))) else None
  }

  /** Some run adds a response to a method that the runs before it saw, but
      never with a response. */
  ghost predicate LateAnswer(logs: seq<seq<Entry>>) {
    exists i, e | 0 <= i < |logs| && e in logs[i] ::
      e.reply.Some? && NeverAnswered(Joined(logs[..i]), e.path, Verb(e))
  }

  lemma LateAnswerLast(logs: seq<seq<Entry>>)
    requires logs != []
    ensures var front, last := logs[..|logs| - 1], logs[|logs| - 1];
            LateAnswer(logs) <==>
              LateAnswer(front) || exists e | e in last :: e.reply.Some? && NeverAnswered(Joined(front), e.path, Verb(e))
  {
    var front, last := logs[..|logs| - 1], logs[|logs| - 1];
    assert forall i | 0 <= i < |front| :: front[i] == logs[i] && front[..i] == logs[..i];
    if exists e | e in last :: e.reply.Some? && NeverAnswered(Joined(front), e.path, Verb(e)) {
      var e :| e in last && e.reply.Some? && NeverAnswered(Joined(front), e.path, Verb(e));
      assert e in logs[|front|] && front == logs[..|front|];
    }
    if LateAnswer(front) {
      var i: nat, e: Entry :| 0 <= i < |front| && e in front[i] && e.reply.Some? && NeverAnswered(Joined(front[..i]), e.path, Verb(e));
      assert e in logs[i] && front[..i] == logs[..i];
    }
  }

  /** Any number of incremental runs: they all complete iff none adds a late
      answer, and then they save what one run over all the logs saves. */
  lemma {:induction false} IncrementalRuns(decode: Decoder, logs: seq<seq<Entry>>)
    requires forall e | e in Joined(logs) :: WellRead(e)
    ensures SafeRun(decode, map[], Joined(logs))
    ensures Incremental(decode, logs).Some? <==> !LateAnswer(logs)
    ensures Incremental(decode, logs).Some? ==>
              Incremental(decode, logs).value == Reloaded(Fold(decode, map[], Joined(logs)))
    decreases |logs|
  {
    hide SafeRun, Fold, LateAnswer, NeverAnswered;
    if logs == [] {
      NoRuns(decode, logs);
    } else {
      var front, last := logs[..|logs| - 1], logs[|logs| - 1];
      assert forall e | e in Joined(front) :: e in Joined(logs);
      IncrementalRuns(decode, front);
      SplitLaw(decode, Joined(front), last);
      LateAnswerLast(logs);
    }
  }

  lemma NoRuns(decode: Decoder, logs: seq<seq<Entry>>)
    requires logs == []
    ensures SafeRun(decode, map[], Joined(logs)) && !LateAnswer(logs)
    ensures Reloaded(Fold(decode, map[], Joined(logs))) == map[]
  {
  }

  // ----- servers --------------------------------------------------------

  function AddServer(servers: seq<string>, api: string): seq<string> {
    if api in servers then servers else servers + [api]
  }

  /** The servers after runs for these hosts, first to last. */
  function Servers(apis: seq<string>): seq<string> {
    if apis == [] then [] else AddServer(Servers(apis[..|apis| - 1]), apis[|apis| - 1])
  }

  /** Server URLs are the hosts of the runs, without duplicates, and a later
      run only appends: they stand in the order first seen. */
  lemma {:induction false} ServersDistinct(apis: seq<string>)
    ensures forall i, j | 0 <= i < j < |Servers(apis)| :: Servers(apis)[i] != Servers(apis)[j]
    ensures forall x: string :: x in Servers(apis) <==> x in apis
    ensures forall n | 0 <= n <= |apis| :: Servers(apis[..n]) <= Servers(apis)
  {
    if apis != [] {
      var front := apis[..|apis| - 1];
      ServersDistinct(front);
      assert apis == front + [apis[|apis| - 1]];
      forall n | 0 <= n <= |apis|
        ensures Servers(apis[..n]) <= Servers(apis)
      {
        if n < |apis| {
          assert apis[..n] == front[..n];
        } else {
          assert apis[..n] == apis;
        }
      }
    }
  }
}
