/** Incremental runs of the generator over the specification file: each run
    loads it, extends it by its log, and writes over it without truncating. */
module ApiFiles {
  import opened Text
  import opened ApiSpec
  import opened ApiLaws

  /** What the file says: title, server URLs, paths. */
  datatype Document = Document(title: string, servers: seq<string>, paths: Paths)

  function Reload(d: Document): Document { d.(paths := Reloaded(d.paths)) }

  /** The YAML library; a None of load is its error. */
  datatype Codec = Codec(encode: Document -> string, load: string -> Option<Document>)

  /** An encoded document loads as what a save keeps of it, and documents of
      which a save keeps the same are encoded alike. Nothing is said of other
      texts. */
  ghost predicate Lossless(c: Codec) {
    && (forall d: Document :: c.load(c.encode(d)) == Some(Reload(d)))
    && (forall d: Document, e: Document | Reload(d) == Reload(e) :: c.encode(d) == c.encode(e))
  }

  /** Writing over a file that is not truncated: the old tail stays. */
  function Overwritten(file: Option<string>, text: string): (r: string)
    ensures text <= r
    ensures r == text <==> file.None? || |file.value| <= |text|
    ensures file.Some? && |text| < |file.value| ==> |r| == |file.value| && r[|text|..] == file.value[|text|..]
  {
    if file.None? || |file.value| <= |text| then text else text + file.value[|text|..]
  }

  datatype Run = Run(logDir: string, api: string, log: seq<Entry>)
  {
    function Entries(): seq<Entry> { ForHost(log, api) }
  }

  /** The document a run starts from: new, or the loaded one with its title and
      servers extended; None when the file does not load. */
  function Base(c: Codec, file: Option<string>, run: Run): Option<Document> {
    match file
    case None => Some(Document(run.logDir, [run.api], map[]))
    case Some(text) =>
      match c.load(text)
      case None => None
      case Some(d) => Some(Document(d.title + "," + run.logDir, AddServer(d.servers, run.api), d.paths))
  }

  /** The file after a run; None when the run fails or panics. */
  function RunOnce(c: Codec, decode: Decoder, file: Option<string>, run: Run): Option<string> {
    match Base(c, file, run)
    case None => None
    case Some(d) =>
      if SafeRun(decode, d.paths, run.Entries())
      then Some(Overwritten(file, c.encode(d.(paths := Fold(decode, d.paths, run.Entries())))))
      else None
  }

  /** The file after several runs from no file on, or Broken. */
  datatype Disk = Broken | Holding(file: Option<string>)

  function RunAll(c: Codec, decode: Decoder, runs: seq<Run>): Disk
    decreases |runs|
  {
    if runs == [] then Holding(None)
    else
      match RunAll(c, decode, runs[..|runs| - 1])
      case Broken => Broken
      case Holding(file) =>
        match RunOnce(c, decode, file, runs[|runs| - 1])
        case None => Broken
        case Some(text) => Holding(Some(text))
  }

  // ----- all runs at once -----------------------------------------------

  function Logs(runs: seq<Run>): (r: seq<seq<Entry>>)
    ensures |r| == |runs| && forall i | 0 <= i < |runs| :: r[i] == runs[i].Entries()
  {
    seq(|runs|, i requires 0 <= i < |runs| => runs[i].Entries())
  }

  function Apis(runs: seq<Run>): (r: seq<string>)
    ensures |r| == |runs| && forall i | 0 <= i < |runs| :: r[i] == runs[i].api
  {
    seq(|runs|, i requires 0 <= i < |runs| => runs[i].api)
  }

  function Title(runs: seq<Run>): string {
    if runs == [] then ""
    else if |runs| == 1 then runs[0].logDir
    else Title(runs[..|runs| - 1]) + "," + runs[|runs| - 1].logDir
  }

  ghost predicate AllWellRead(runs: seq<Run>) {
    forall e | e in Joined(Logs(runs)) :: WellRead(e)
  }

  /** The document of one run over all the logs, which cannot panic. */
  function Whole(decode: Decoder, runs: seq<Run>): Document {
    var log := Joined(Logs(runs));
    Document(Title(runs), Servers(Apis(runs)), if SafeRun(decode, map[], log) then Fold(decode, map[], log) else map[])
  }

  lemma WholeIsSafe(decode: Decoder, runs: seq<Run>)
    requires AllWellRead(runs)
    ensures SafeRun(decode, map[], Joined(Logs(runs)))
    ensures Whole(decode, runs).paths == Fold(decode, map[], Joined(Logs(runs)))
  {
    ReadLogsAreSafe(decode, map[], Joined(Logs(runs)));
  }

  lemma FrontOf(decode: Decoder, runs: seq<Run>)
    requires runs != []
    ensures var front, last := runs[..|runs| - 1], runs[|runs| - 1];
            && Logs(runs) == Logs(front) + [last.Entries()]
            && Joined(Logs(runs)) == Joined(Logs(front)) + last.Entries()
            && Servers(Apis(runs)) == AddServer(Servers(Apis(front)), last.api)
            && (AllWellRead(runs) ==> AllWellRead(front))
  {
    var front, last := runs[..|runs| - 1], runs[|runs| - 1];
    assert Logs(runs)[..|runs| - 1] == Logs(front);
    assert Apis(runs)[..|runs| - 1] == Apis(front);
    assert forall e | e in Joined(Logs(front)) :: e in Joined(Logs(runs));
  }

  /** The text of one run over all the logs. */
  function Encoded(c: Codec, decode: Decoder, runs: seq<Run>): string {
    c.encode(Whole(decode, runs))
  }

  /** The file holds exactly what one run over all the logs writes. */
  ghost predicate Exact(c: Codec, decode: Decoder, runs: seq<Run>) {
    RunAll(c, decode, runs) == Holding(if runs == [] then None else Some(Encoded(c, decode, runs)))
  }

  // ----- one more run ---------------------------------------------------

  /** The last of the runs adds a response to a method that the earlier ones
      saw, but never with a response. */
  ghost predicate AnswersLate(runs: seq<Run>)
    requires runs != []
  {
    exists e | e in runs[|runs| - 1].Entries() ::
      e.reply.Some? && NeverAnswered(Joined(Logs(runs[..|runs| - 1])), e.path, Verb(e))
  }

  lemma NothingSoFar(decode: Decoder)
    ensures Whole(decode, []) == Document("", [], map[]) && Reloaded(map[]) == map[]
  {
    assert Logs([]) == [] && Apis([]) == [];
  }

  lemma BaseOfExact(c: Codec, decode: Decoder, runs: seq<Run>, file: Option<string>)
    requires Lossless(c) && runs != []
    requires file == if |runs| == 1 then None else Some(Encoded(c, decode, runs[..|runs| - 1]))
    ensures Base(c, file, runs[|runs| - 1]) ==
            Some(Document(Title(runs), Servers(Apis(runs)), Reloaded(Whole(decode, runs[..|runs| - 1]).paths)))
  {
    hide SafeRun, Fold, Joined, Reloaded, Servers;
    var front := runs[..|runs| - 1];
    FrontOf(decode, runs);
    if |runs| == 1 {
      NothingSoFar(decode);
      assert front == [];
      assert Servers(Apis(front)) == Whole(decode, front).servers;
      assert [] + [runs[0].api] == [runs[0].api];
    } else {
      assert c.load(c.encode(Whole(decode, front))) == Some(Reload(Whole(decode, front)));
    }
  }

  /** A run on a file that holds what the earlier runs are to write: it panics
      iff it answers late; otherwise its text is that of one run over all the
      logs, and the file holds exactly that iff it held nothing longer. */
  lemma OneMoreRun(c: Codec, decode: Decoder, runs: seq<Run>)
    requires Lossless(c) && runs != [] && AllWellRead(runs) && Exact(c, decode, runs[..|runs| - 1])
    ensures var front := runs[..|runs| - 1];
            var file := if front == [] then None else Some(Encoded(c, decode, front));
            && RunAll(c, decode, runs) ==
                 (if AnswersLate(runs) then Broken else Holding(Some(Overwritten(file, Encoded(c, decode, runs)))))
            && (Exact(c, decode, runs) <==>
                  !AnswersLate(runs) && (front == [] || |Encoded(c, decode, front)| <= |Encoded(c, decode, runs)|))
  {
    hide SafeRun, Fold, NeverAnswered, Reloaded, Joined;
    var front, last := runs[..|runs| - 1], runs[|runs| - 1];
    var file := if front == [] then None else Some(Encoded(c, decode, front));
    FrontOf(decode, runs);
    WholeIsSafe(decode, front);
    WholeIsSafe(decode, runs);
    BaseOfExact(c, decode, runs, file);
    SplitLaw(decode, Joined(Logs(front)), last.Entries());
    var saved := Reloaded(Whole(decode, front).paths);
    if SafeRun(decode, saved, last.Entries()) {
      var d := Document(Title(runs), Servers(Apis(runs)), Fold(decode, saved, last.Entries()));
      assert Reload(d) == Reload(Whole(decode, runs));
    }
  }

  // ----- any number of runs ---------------------------------------------

  /** After each of the runs the file holds exactly what one run over the logs
      so far writes. */
  ghost predicate AlwaysExact(c: Codec, decode: Decoder, runs: seq<Run>) {
    forall n | 0 < n <= |runs| :: Exact(c, decode, runs[..n])
  }

  /** No run has a shorter text than one before it. */
  ghost predicate NeverShrinks(c: Codec, decode: Decoder, runs: seq<Run>) {
    forall m, n | 0 < m <= n <= |runs| :: |Encoded(c, decode, runs[..m])| <= |Encoded(c, decode, runs[..n])|
  }

  lemma LastOfAll(c: Codec, decode: Decoder, runs: seq<Run>)
    requires runs != []
    ensures var front := runs[..|runs| - 1];
            && (AlwaysExact(c, decode, runs) <==> AlwaysExact(c, decode, front) && Exact(c, decode, runs))
            && (NeverShrinks(c, decode, runs) <==>
                  NeverShrinks(c, decode, front) &&
                  (front == [] || |Encoded(c, decode, front)| <= |Encoded(c, decode, runs)|))
  {
    hide Exact, Encoded;
    var front := runs[..|runs| - 1];
    assert forall n | 0 < n <= |front| :: front[..n] == runs[..n];
    assert runs[..|runs|] == runs && front[..|front|] == front;
    if NeverShrinks(c, decode, runs) && front != [] {
      assert |Encoded(c, decode, runs[..|front|])| <= |Encoded(c, decode, runs[..|runs|])|;
    }
    if NeverShrinks(c, decode, front) && front != [] && |Encoded(c, decode, front)| <= |Encoded(c, decode, runs)| {
      forall m, n | 0 < m <= n <= |runs|
        ensures |Encoded(c, decode, runs[..m])| <= |Encoded(c, decode, runs[..n])|
      {
        if m < |runs| {
          assert |Encoded(c, decode, front[..m])| <= |Encoded(c, decode, front[..|front|])|;
        }
        if n < |runs| {
          assert |Encoded(c, decode, front[..m])| <= |Encoded(c, decode, front[..n])|;
        }
      }
    }
  }

  lemma LateIffSome(decode: Decoder, runs: seq<Run>)
    requires runs != []
    ensures LateAnswer(Logs(runs)) <==> LateAnswer(Logs(runs[..|runs| - 1])) || AnswersLate(runs)
  {
    FrontOf(decode, runs);
    LateAnswerLast(Logs(runs));
    assert Logs(runs)[..|runs| - 1] == Logs(runs[..|runs| - 1]);
  }

  /** Any number of incremental runs on one file: after each of them the file
      holds what one run over all the logs so far writes, iff no run answers
      late and no run has a shorter text than one before it. */
  lemma {:induction false} FilesOfRuns(c: Codec, decode: Decoder, runs: seq<Run>)
    requires Lossless(c) && AllWellRead(runs)
    ensures AlwaysExact(c, decode, runs) <==> !LateAnswer(Logs(runs)) && NeverShrinks(c, decode, runs)
    decreases |runs|
  {
    hide Exact, LateAnswer, AnswersLate, Encoded, RunAll, AllWellRead, Lossless, Logs;
    if runs == [] {
      NoLateAnswer(Logs(runs));
    } else {
      hide AlwaysExact, NeverShrinks;
      var front := runs[..|runs| - 1];
      FrontWellRead(decode, runs);
      FilesOfRuns(c, decode, front);
      LateIffSome(decode, runs);
      LastOfAll(c, decode, runs);
      if AlwaysExact(c, decode, front) {
        ExactAtStart(c, decode, front);
        OneMoreRun(c, decode, runs);
      }
    }
  }

  lemma FrontWellRead(decode: Decoder, runs: seq<Run>)
    requires runs != [] && AllWellRead(runs)
    ensures AllWellRead(runs[..|runs| - 1])
  {
    FrontOf(decode, runs);
  }

  lemma ExactAtStart(c: Codec, decode: Decoder, runs: seq<Run>)
    requires AlwaysExact(c, decode, runs)
    ensures Exact(c, decode, runs)
  {
    if runs != [] {
      assert runs[..|runs|] == runs;
    }
  }

  lemma NoLateAnswer(logs: seq<seq<Entry>>)
    requires logs == []
    ensures !LateAnswer(logs)
  {
  }

  /** So with neither the file in the end holds the whole specification. */
  lemma FinalFile(c: Codec, decode: Decoder, runs: seq<Run>)
    requires Lossless(c) && AllWellRead(runs) && runs != []
    requires !LateAnswer(Logs(runs)) && NeverShrinks(c, decode, runs)
    ensures SafeRun(decode, map[], Joined(Logs(runs)))
    ensures RunAll(c, decode, runs) ==
            Holding(Some(c.encode(Document(Title(runs), Servers(Apis(runs)), Fold(decode, map[], Joined(Logs(runs)))))))
  {
    FilesOfRuns(c, decode, runs);
    ExactAtStart(c, decode, runs);
    WholeIsSafe(decode, runs);
  }

  /** A shorter text on an exact file leaves a tail of the old one behind. */
  lemma ShrinkingLeavesTail(c: Codec, decode: Decoder, runs: seq<Run>)
    requires Lossless(c) && AllWellRead(runs) && |runs| > 1 && Exact(c, decode, runs[..|runs| - 1])
    requires !AnswersLate(runs) && |Encoded(c, decode, runs)| < |Encoded(c, decode, runs[..|runs| - 1])|
    ensures var old', new' := Encoded(c, decode, runs[..|runs| - 1]), Encoded(c, decode, runs);
            RunAll(c, decode, runs) == Holding(Some(new' + old'[|new'|..]))
  {
    OneMoreRun(c, decode, runs);
  }

  /** A failing input: a request with a query key in the first run, the same
      without it in the second. The second specification lacks the parameter;
      where its text is shorter, the end of the first stays in the file. */
  lemma DroppedQuery(c: Codec, decode: Decoder, logDir: string, key: string, value: string)
    requires Lossless(c)
    ensures var first, second := GetA(map[key := [value]], None), GetA(map[], None);
            var one, two := Run(logDir, "host", [first]), Run(logDir, "host", [second]);
            var old', new' := Encoded(c, decode, [one]), Encoded(c, decode, [one, two]);
            && ParamsAt(Whole(decode, [one]).paths, "/a", Verb(first)) == Some(Params(decode, map[key := [value]], None))
            && ParamsAt(Whole(decode, [one, two]).paths, "/a", Verb(first)) == Some({})
            && (|new'| < |old'| ==> RunAll(c, decode, [one, two]) == Holding(Some(new' + old'[|new'|..])))
  {
    hide SafeRun, Fold, Joined, ForHost, Encoded, RunAll, Params;
    var first, second := GetA(map[key := [value]], None), GetA(map[], None);
    var one, two := Run(logDir, "host", [first]), Run(logDir, "host", [second]);
    JoinedTwo(one, two);
    TwoRequests(decode, one, two);
    if |Encoded(c, decode, [one, two])| < |Encoded(c, decode, [one])| {
      TwoFiles(c, decode, one, two);
    }
    NoParams(decode);
  }

  lemma NoParams(decode: Decoder)
    ensures Params(decode, map[], None) == {}
  {
  }

  /** The parameters after one and after two requests for the same method. */
  lemma TwoRequests(decode: Decoder, one: Run, two: Run)
    requires |one.log| == |two.log| == 1 && WellRead(one.log[0]) && WellRead(two.log[0])
    requires Joined(Logs([one])) == one.log && Joined(Logs([one, two])) == [one.log[0], two.log[0]]
    requires one.log[0].path == two.log[0].path && Verb(one.log[0]) == Verb(two.log[0])
    ensures var first, second := one.log[0], two.log[0];
            && ParamsAt(Whole(decode, [one]).paths, first.path, Verb(first)) == Some(Params(decode, first.query, first.body))
            && ParamsAt(Whole(decode, [one, two]).paths, first.path, Verb(first)) == Some(Params(decode, second.query, second.body))
  {
    hide SafeRun, Fold, Joined, Params;
    var first, second := one.log[0], two.log[0];
    assert one.log == [first];
    WholeIsSafe(decode, [one]);
    WholeIsSafe(decode, [one, two]);
    SpecOfLog(decode, [first], first.path, Verb(first), 0, "");
    SpecOfLog(decode, [first, second], first.path, Verb(first), 0, "");
    LastOfTwo(decode, first, second);
  }

  /** The file after two runs of requests alone, the second with a shorter text. */
  lemma TwoFiles(c: Codec, decode: Decoder, one: Run, two: Run)
    requires |one.log| == |two.log| == 1 && WellRead(one.log[0]) && WellRead(two.log[0])
    requires Lossless(c) && Joined(Logs([one])) == one.log && Joined(Logs([one, two])) == [one.log[0], two.log[0]]
    requires one.log[0].reply == two.log[0].reply == None
    requires |Encoded(c, decode, [one, two])| < |Encoded(c, decode, [one])|
    ensures var old', new' := Encoded(c, decode, [one]), Encoded(c, decode, [one, two]);
            RunAll(c, decode, [one, two]) == Holding(Some(new' + old'[|new'|..]))
  {
    hide SafeRun, Fold, Joined, Encoded, RunAll;
    assert [one, two][..1] == [one] && [one][..0] == [];
    NoLateAnswer(Logs([]));
    AsksOnly(one.log, one.api);
    AsksOnly(two.log, two.api);
    LateIffSome(decode, [one]);
    FilesOfRuns(c, decode, [one]);
    ExactAtStart(c, decode, [one]);
    ShrinkingLeavesTail(c, decode, [one, two]);
  }

  lemma {:induction false} AsksOnly(log: seq<Entry>, api: string)
    requires forall e | e in log :: e.reply.None?
    ensures forall e | e in ForHost(log, api) :: e.reply.None?
  {
    if log != [] {
      assert forall e | e in log[1..] :: e in log;
      AsksOnly(log[1..], api);
    }
  }

  lemma LastOfTwo(decode: Decoder, first: Entry, second: Entry)
    requires GoodQuery(first.query) && GoodQuery(second.query) && first.path == second.path && Verb(first) == Verb(second)
    ensures LastParams(decode, [first], first.path, Verb(first)) == Some(Params(decode, first.query, first.body))
    ensures LastParams(decode, [first, second], first.path, Verb(first)) == Some(Params(decode, second.query, second.body))
  {
    assert [first, second][1..] == [second] && [second][1..] == [] && [first][1..] == [];
  }

  lemma OwnEntry(run: Run)
    requires |run.log| == 1 && run.log[0].host == run.api
    ensures run.Entries() == run.log
  {
    assert run.log[1..] == [];
    assert ForHost(run.log[1..], run.api) == [];
  }

  lemma JoinedTwo(one: Run, two: Run)
    requires |one.log| == |two.log| == 1 && one.log[0].host == one.api && two.log[0].host == two.api
    ensures Joined(Logs([one])) == one.log && Joined(Logs([one, two])) == [one.log[0], two.log[0]]
  {
    OwnEntry(one);
    OwnEntry(two);
    assert Logs([one]) == [one.log] && Logs([one, two]) == [one.log, two.log];
    assert [one.log, two.log][..1] == [one.log] && [one.log][..0] == [];
    assert Joined([]) == [] && Joined([one.log]) == one.log;
    assert one.log + two.log == [one.log[0], two.log[0]];
  }
}
