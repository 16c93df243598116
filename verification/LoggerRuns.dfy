/** The logger as an interleaving of producers, one consumer and Close. */
module LoggerRuns {
  import opened Text
  import opened LogNames
  import opened LogSpec

  /** A transaction past Take: the consumer skips those without a request. */
  type Live = t: Txn | t.request.Some?
    witness Txn(UserData("", None, false, ""), Some(Request("", "", None)), None, "")

  /** Program counter of the consumer. The structured write is two writes to
      the file: the record, then its newline. */
  datatype Consumer =
    | Idle
    | Took(t: Live)
    | WroteRecord(t: Live)
    | SavingRequest(t: Live)
    | SavingResponse(t: Live)
    | Finished

  /** Close closes the structured writer, then the queue. */
  datatype Closer = Running | WriterClosed | QueueClosed

  /** enqueued: every transaction sent so far; processed: those the consumer
      has finished; begun: those whose structured write was begun while the
      writer was open; torn: the writer was closed between a record and its
      newline. */
  datatype State = State(
    enqueued: seq<Txn>, queue: seq<Txn>, consumer: Consumer, processed: seq<Txn>, closer: Closer,
    content: string, files: Files, begun: seq<Txn>, torn: bool)

  const INITIAL := State([], [], Idle, [], Running, "", map[], [], false)

  datatype Step =
    | Enqueue(t: Txn)
    | Take
    | BeginLine
    | EndLine
    | SaveRequest
    | SaveResponse
    | CloseWriter
    | CloseQueue
    | Finish

  /** A send needs room, and a channel that is not closed (else it panics). */
  predicate Enabled(s: State, step: Step) {
    match step
    case Enqueue(_) => s.closer != QueueClosed && |s.queue| < CAPACITY
    case Take => s.consumer.Idle? && s.queue != []
    case BeginLine => s.consumer.Took?
    case EndLine => s.consumer.WroteRecord?
    case SaveRequest => s.consumer.SavingRequest?
    case SaveResponse => s.consumer.SavingResponse?
    case CloseWriter => s.closer == Running
    case CloseQueue => s.closer == WriterClosed
    case Finish => s.consumer.Idle? && s.queue == [] && s.closer == QueueClosed
  }

  function Exec(cfg: Setup, s: State, step: Step): State
    requires Enabled(s, step)
  {
    var open := s.closer == Running;
    match step
    case Enqueue(t) => s.(enqueued := s.enqueued + [t], queue := s.queue + [t])
    case Take =>
      var t := s.queue[0];
      if t.request.None?
      then s.(queue := s.queue[1..], processed := s.processed + [t], begun := if open then s.begun + [t] else s.begun)
      else s.(queue := s.queue[1..], consumer := Took(t))
    case BeginLine =>
      var t := s.consumer.t;
      var line := LineOf(cfg, t);
      s.(consumer := if line.Some? then WroteRecord(t) else SavingRequest(t),
         content := if open && line.Some? then s.content + line.value else s.content,
         begun := if open then s.begun + [t] else s.begun)
    case EndLine =>
      s.(consumer := SavingRequest(s.consumer.t), content := if open then s.content + "\n" else s.content)
    case SaveRequest =>
      var t := s.consumer.t;
      var s' := s.(files := Apply(s.files, RequestSave(cfg.options, t)));
      if t.response.Some? then s'.(consumer := SavingResponse(t))
      else s'.(consumer := Idle, processed := s.processed + [t])
    case SaveResponse =>
      var t := s.consumer.t;
      s.(files := Apply(s.files, ResponseSave(cfg.options, t)), consumer := Idle, processed := s.processed + [t])
    case CloseWriter => s.(closer := WriterClosed, torn := s.consumer.WroteRecord?)
    case CloseQueue => s.(closer := QueueClosed)
    case Finish => s.(consumer := Finished)
  }

  predicate Runs(cfg: Setup, s: State, steps: seq<Step>)
    decreases |steps|
  {
    steps == [] || (Enabled(s, steps[0]) && Runs(cfg, Exec(cfg, s, steps[0]), steps[1..]))
  }

  function After(cfg: Setup, s: State, steps: seq<Step>): State
    requires Runs(cfg, s, steps)
    decreases |steps|
  {
    if steps == [] then s else After(cfg, Exec(cfg, s, steps[0]), steps[1..])
  }

  ghost predicate Reachable(cfg: Setup, s: State) {
    exists steps: seq<Step> :: Runs(cfg, INITIAL, steps) && After(cfg, INITIAL, steps) == s
  }

  // ----- the invariant --------------------------------------------------

  /** The transaction in the consumer's hands. */
  function InFlight(c: Consumer): seq<Txn> {
    match c
    case Idle => []
    case Finished => []
    case _ => [c.t]
  }

  /** Those of which the structured write has been begun. */
  function Begun(s: State): seq<Txn> {
    if s.consumer.WroteRecord? || s.consumer.SavingRequest? || s.consumer.SavingResponse?
    then s.processed + [s.consumer.t] else s.processed
  }

  predicate Queue(s: State) {
    && s.enqueued == s.processed + InFlight(s.consumer) + s.queue
    && |s.queue| <= CAPACITY
    && (s.consumer.Finished? ==> s.queue == [] && s.closer == QueueClosed)
    && (s.consumer.SavingResponse? ==> s.consumer.t.response.Some?)
  }

  /** Files: a function of what is processed, and of the half-processed one. */
  ghost predicate Stored(cfg: Setup, s: State) {
    s.files == Apply(map[], AllSaves(cfg.options, s.processed) +
                            if s.consumer.SavingResponse? then RequestSave(cfg.options, s.consumer.t) else [])
  }

  /** The structured output, up to a newline still to be written or lost. */
  predicate Structured(cfg: Setup, s: State) {
    && (s.consumer.WroteRecord? ==> LineOf(cfg, s.consumer.t).Some?)
    && if s.closer == Running then
         && !s.torn && s.begun == Begun(s)
         && Framed(LinesOf(cfg, s.begun)) == s.content + if s.consumer.WroteRecord? then "\n" else ""
       else
         && s.begun <= Begun(s)
         && (s.torn ==> s.begun != [] && LineOf(cfg, s.begun[|s.begun| - 1]).Some?)
         && Framed(LinesOf(cfg, s.begun)) == s.content + if s.torn then "\n" else ""
  }

  ghost predicate Inv(cfg: Setup, s: State) {
    Queue(s) && Stored(cfg, s) && Structured(cfg, s)
  }

  lemma QueueStep(cfg: Setup, s: State, step: Step)
    requires Queue(s) && Enabled(s, step)
    ensures Queue(Exec(cfg, s, step))
  {
  }

  lemma StoredRequest(cfg: Setup, s: State)
    requires Stored(cfg, s) && s.consumer.SavingRequest?
    ensures Stored(cfg, Exec(cfg, s, SaveRequest))
  {
    var o, t, done := cfg.options, s.consumer.t, AllSaves(cfg.options, s.processed);
    AllSavesAppend(o, s.processed, [t]);
    assert AllSaves(o, [t]) == SavesOf(o, t);
    assert done + [] == done;
    ApplyAppend(map[], done, RequestSave(o, t));
    if t.response.None? {
      assert RequestSave(o, t) + [] == RequestSave(o, t);
      assert done + RequestSave(o, t) + [] == done + RequestSave(o, t);
    }
  }

  /** Saving a transaction's parts one after the other saves it. */
  lemma SavedBoth(o: Options, done: seq<Txn>, t: Live)
    ensures Apply(Apply(map[], AllSaves(o, done) + RequestSave(o, t)), ResponseSave(o, t))
            == Apply(map[], AllSaves(o, done + [t]))
  {
    var d, r, p := AllSaves(o, done), RequestSave(o, t), ResponseSave(o, t);
    AllSavesAppend(o, done, [t]);
    assert AllSaves(o, [t]) == r + p;
    ApplyAppend(map[], d + r, p);
    assert d + r + p == d + (r + p);
  }

  lemma StoredResponse(cfg: Setup, s: State)
    requires Stored(cfg, s) && s.consumer.SavingResponse?
    ensures Stored(cfg, Exec(cfg, s, SaveResponse))
  {
    SavedBoth(cfg.options, s.processed, s.consumer.t);
    var all := AllSaves(cfg.options, s.processed + [s.consumer.t]);
    assert all + [] == all;
  }

  lemma StoredTake(cfg: Setup, s: State)
    requires Stored(cfg, s) && Enabled(s, Take)
    ensures Stored(cfg, Exec(cfg, s, Take))
  {
    var o, t := cfg.options, s.queue[0];
    if t.request.None? {
      AllSavesAppend(o, s.processed, [t]);
      assert AllSaves(o, [t]) == [];
      assert AllSaves(o, s.processed + [t]) == AllSaves(o, s.processed);
    }
  }

  lemma StoredStep(cfg: Setup, s: State, step: Step)
    requires Stored(cfg, s) && Enabled(s, step)
    ensures Stored(cfg, Exec(cfg, s, step))
  {
    match step
    case SaveRequest => StoredRequest(cfg, s);
    case SaveResponse => StoredResponse(cfg, s);
    case Take => StoredTake(cfg, s);
    case _ => assert Exec(cfg, s, step).files == s.files;
  }

  /** One more begun transaction adds its line, if it has one. */
  lemma OneMore(cfg: Setup, ts: seq<Txn>, t: Txn)
    ensures Framed(LinesOf(cfg, ts + [t])) ==
            Framed(LinesOf(cfg, ts)) + match LineOf(cfg, t) case None => "" case Some(line) => line + "\n"
  {
    LinesOfAppend(cfg, ts, [t]);
    FramedAppend(LinesOf(cfg, ts), LinesOf(cfg, [t]));
    if LineOf(cfg, t).Some? {
      assert LinesOf(cfg, [t]) == [LineOf(cfg, t).value];
      assert Framed([LineOf(cfg, t).value]) == LineOf(cfg, t).value + "\n";
    }
  }

  lemma StructuredTake(cfg: Setup, s: State)
    requires Structured(cfg, s) && Enabled(s, Take)
    ensures Structured(cfg, Exec(cfg, s, Take))
  {
    hide LinesOf, Framed;
    OneMore(cfg, s.begun, s.queue[0]);
    assert s.begun <= Begun(s) ==> s.begun <= Begun(s) + [s.queue[0]];
  }

  lemma StructuredBegin(cfg: Setup, s: State)
    requires Structured(cfg, s) && Enabled(s, BeginLine)
    ensures Structured(cfg, Exec(cfg, s, BeginLine))
  {
    hide LineOf, LinesOf, Framed;
    var t := s.consumer.t;
    OneMore(cfg, s.begun, t);
    assert s.begun <= Begun(s) ==> s.begun <= Begun(s) + [t];
    assert s.content + "" == s.content;
    if LineOf(cfg, t).Some? {
      assert s.content + (LineOf(cfg, t).value + "\n") == s.content + LineOf(cfg, t).value + "\n";
    }
  }

  lemma StructuredClose(cfg: Setup, s: State)
    requires Structured(cfg, s) && Enabled(s, CloseWriter)
    ensures Structured(cfg, Exec(cfg, s, CloseWriter))
  {
  }

  lemma StructuredStep(cfg: Setup, s: State, step: Step)
    requires Structured(cfg, s) && Enabled(s, step)
    ensures Structured(cfg, Exec(cfg, s, step))
  {
    match step
    case Take => StructuredTake(cfg, s);
    case BeginLine => StructuredBegin(cfg, s);
    case CloseWriter => StructuredClose(cfg, s);
    case EndLine => assert s.content + "\n" + "" == s.content + "\n";
    case _ => assert Exec(cfg, s, step).content == s.content && Begun(Exec(cfg, s, step)) == Begun(s);
  }

  lemma {:induction false} InvRun(cfg: Setup, s: State, steps: seq<Step>)
    requires Inv(cfg, s) && Runs(cfg, s, steps)
    ensures Inv(cfg, After(cfg, s, steps))
    decreases |steps|
  {
    if steps != [] {
      QueueStep(cfg, s, steps[0]);
      StoredStep(cfg, s, steps[0]);
      StructuredStep(cfg, s, steps[0]);
      InvRun(cfg, Exec(cfg, s, steps[0]), steps[1..]);
    }
  }

  lemma InvReachable(cfg: Setup, s: State)
    requires Reachable(cfg, s)
    ensures Inv(cfg, s)
  {
    var steps :| Runs(cfg, INITIAL, steps) && After(cfg, INITIAL, steps) == s;
    assert Apply(map[], AllSaves(cfg.options, []) + []) == map[];
    InvRun(cfg, INITIAL, steps);
  }

  // ----- main results ---------------------------------------------------

  /** Conservation, in every reachable state: nothing is lost, duplicated or
      reordered between the producers and the consumer, and the queue never
      holds more than its capacity. */
  lemma Conservation(cfg: Setup, s: State)
    requires Reachable(cfg, s)
    ensures s.enqueued == s.processed + InFlight(s.consumer) + s.queue
    ensures |s.queue| <= 1000
    ensures forall t: Txn :: Enabled(s, Enqueue(t)) <==> s.closer != QueueClosed && |s.queue| < 1000
  {
    InvReachable(cfg, s);
  }

  /** Whenever the consumer is between transactions, the files are exactly
      those named by the processed transactions, each with the in-order
      concatenation of the payloads saved under its name. */
  lemma FilesOfProcessed(cfg: Setup, s: State, file: string)
    requires Reachable(cfg, s) && (s.consumer.Idle? || s.consumer.Finished?)
    ensures var saves := AllSaves(cfg.options, s.processed);
            && (file in s.files <==> SavedTo(saves, file))
            && (file in s.files ==> s.files[file] == ContentOf(saves, file))
  {
    hide SavedTo;
    InvReachable(cfg, s);
    StoredContents(cfg, s, AllSaves(cfg.options, s.processed), file);
  }

  lemma StoredContents(cfg: Setup, s: State, saves: seq<Save>, file: string)
    requires s.files == Apply(map[], saves + [])
    ensures file in s.files <==> SavedTo(saves, file)
    ensures file in s.files ==> s.files[file] == ContentOf(saves, file)
  {
    hide Apply, ContentOf;
    assert saves + [] == saves;
    assert "" + ContentOf(saves, file) == ContentOf(saves, file);
    FilesAreContents(map[], saves, file);
  }

  /** The structured output is the lines of the transactions begun before the
      writer was closed, a prefix of those sent; only the newline of the last
      can be missing (CloseLeaves says which prefix, and when). */
  lemma StructuredOutput(cfg: Setup, s: State)
    requires Reachable(cfg, s)
    ensures s.begun <= s.enqueued
    ensures var lines := Framed(LinesOf(cfg, s.begun));
            s.content == lines || (s.content + "\n" == lines && LineOf(cfg, s.begun[|s.begun| - 1]).Some?)
    ensures s.closer == Running && !s.consumer.WroteRecord? ==> s.content == Framed(LinesOf(cfg, Begun(s)))
  {
    InvReachable(cfg, s);
    assert s.content + "" == s.content;
    assert s.begun <= Begun(s) <= s.enqueued;
  }

  /** When the consumer ends, everything ever sent is in the stores, also what
      was still queued when Close had closed the structured writer. */
  lemma DrainedAtEnd(cfg: Setup, s: State)
    requires Reachable(cfg, s) && s.consumer.Finished?
    ensures s.processed == s.enqueued
    ensures s.files == Apply(map[], AllSaves(cfg.options, s.enqueued))
  {
    InvReachable(cfg, s);
    assert s.processed + [] + [] == s.processed;
    assert AllSaves(cfg.options, s.enqueued) + [] == AllSaves(cfg.options, s.enqueued);
  }

  // ----- what an early Close leaves -------------------------------------

  lemma {:induction false} RunsAppend(cfg: Setup, s: State, a: seq<Step>, b: seq<Step>)
    ensures Runs(cfg, s, a + b) <==> Runs(cfg, s, a) && Runs(cfg, After(cfg, s, a), b)
    ensures Runs(cfg, s, a + b) ==> After(cfg, s, a + b) == After(cfg, After(cfg, s, a), b)
    decreases |a|
  {
    if a == [] {
      assert a + b == b;
    } else {
      assert (a + b)[1..] == a[1..] + b;
      if Enabled(s, a[0]) {
        RunsAppend(cfg, Exec(cfg, s, a[0]), a[1..], b);
      }
    }
  }

  /** The structured file lacks a newline, the last one, exactly when the writer
      is torn (or the consumer is just about to write it). */
  lemma WholeIffNotTorn(cfg: Setup, s: State)
    requires Reachable(cfg, s) && (s.consumer.WroteRecord? ==> s.closer != Running)
    ensures s.content == Framed(LinesOf(cfg, s.begun)) <==> !s.torn
    ensures s.torn ==> s.content + "\n" == Framed(LinesOf(cfg, s.begun))
  {
    InvReachable(cfg, s);
    assert s.content + "" == s.content;
    assert |s.content + "\n"| != |s.content|;
  }

  /** Once the writer is closed the structured file is final. */
  lemma {:induction false} ClosedRun(cfg: Setup, s: State, steps: seq<Step>)
    requires s.closer != Running && Runs(cfg, s, steps)
    ensures var z := After(cfg, s, steps);
            z.begun == s.begun && z.torn == s.torn && z.content == s.content && z.closer != Running
    decreases |steps|
  {
    if steps != [] {
      ClosedRun(cfg, Exec(cfg, s, steps[0]), steps[1..]);
    }
  }

  /** The exact effect of when Close comes, for every run: the structured file
      ends with the lines of the transactions whose write was begun by then,
      those of the others never appear, and the last newline is missing iff
      Close came between a record and its newline. */
  lemma CloseLeaves(cfg: Setup, before: seq<Step>, after: seq<Step>)
    requires Runs(cfg, INITIAL, before + [CloseWriter] + after)
    ensures Runs(cfg, INITIAL, before)
    ensures var c, z := After(cfg, INITIAL, before), After(cfg, INITIAL, before + [CloseWriter] + after);
            && z.closer != Running && z.begun == Begun(c) && (z.torn <==> c.consumer.WroteRecord?)
            && if c.consumer.WroteRecord? then z.content + "\n" == Framed(LinesOf(cfg, Begun(c)))
               else z.content == Framed(LinesOf(cfg, Begun(c)))
  {
    var upto := before + [CloseWriter];
    RunsAppend(cfg, INITIAL, upto, after);
    RunsAppend(cfg, INITIAL, before, [CloseWriter]);
    var c := After(cfg, INITIAL, before);
    assert [CloseWriter][1..] == [];
    assert After(cfg, INITIAL, upto) == Exec(cfg, c, CloseWriter);
    assert Reachable(cfg, c);
    InvReachable(cfg, c);
    ClosedRun(cfg, Exec(cfg, c, CloseWriter), after);
    assert c.content + "" == c.content;
  }

  lemma ReachableStep(cfg: Setup, s: State, step: Step)
    requires Reachable(cfg, s) && Enabled(s, step)
    ensures Reachable(cfg, Exec(cfg, s, step))
  {
    var steps :| Runs(cfg, INITIAL, steps) && After(cfg, INITIAL, steps) == s;
    RunsAppend(cfg, INITIAL, steps, [step]);
    assert [step][1..] == [];
    assert Runs(cfg, s, [step]) && After(cfg, s, [step]) == Exec(cfg, s, step);
    assert Runs(cfg, INITIAL, steps + [step]);
  }

  /** The newline can be lost: any transaction that has a line can be caught by
      Close, and the run that catches it goes on to its end. */
  lemma TornOccurs(cfg: Setup, t: Txn)
    requires LineOf(cfg, t).Some?
    ensures exists z: State :: Reachable(cfg, z) && z.consumer.Finished? && z.enqueued == [t] &&
                               z.content == LineOf(cfg, t).value
  {
    hide LineOf, Reachable, RequestSave, ResponseSave, Apply;
    HasParts(cfg, t);
    assert Reachable(cfg, INITIAL) by {
      Start(cfg);
    }
    var s1 := Exec(cfg, INITIAL, Enqueue(t));
    ReachableStep(cfg, INITIAL, Enqueue(t));
    var s2 := Exec(cfg, s1, Take);
    ReachableStep(cfg, s1, Take);
    var s3 := Exec(cfg, s2, BeginLine);
    ReachableStep(cfg, s2, BeginLine);
    var s4 := Exec(cfg, s3, CloseWriter);
    ReachableStep(cfg, s3, CloseWriter);
    var s5 := Exec(cfg, s4, EndLine);
    ReachableStep(cfg, s4, EndLine);
    var s6 := Exec(cfg, s5, SaveRequest);
    ReachableStep(cfg, s5, SaveRequest);
    var s7 := Exec(cfg, s6, SaveResponse);
    ReachableStep(cfg, s6, SaveResponse);
    var s8 := Exec(cfg, s7, CloseQueue);
    ReachableStep(cfg, s7, CloseQueue);
    ReachableStep(cfg, s8, Finish);
  }

  lemma HasParts(cfg: Setup, t: Txn)
    requires LineOf(cfg, t).Some?
    ensures t.request.Some? && t.response.Some?
  {
  }

  lemma Start(cfg: Setup)
    ensures Reachable(cfg, INITIAL)
  {
    assert Runs(cfg, INITIAL, []) && After(cfg, INITIAL, []) == INITIAL;
  }

  // ----- the consumer ends after Close ----------------------------------

  function Rank(c: Consumer): nat {
    match c
    case Idle => 1
    case Took(_) => 5
    case WroteRecord(_) => 4
    case SavingRequest(_) => 3
    case SavingResponse(_) => 2
    case Finished => 0
  }

  function Measure(s: State): nat {
    5 * |s.queue| + Rank(s.consumer)
  }

  lemma DrainStep(cfg: Setup, s: State, step: Step)
    requires s.closer == QueueClosed && Enabled(s, step)
    ensures Exec(cfg, s, step).closer == QueueClosed && Measure(Exec(cfg, s, step)) < Measure(s)
  {
  }

  /** After Close every step brings the consumer closer to its end, and until
      the end some step is possible: the drain always completes. */
  lemma DrainProgress(cfg: Setup, s: State)
    requires Reachable(cfg, s) && s.closer == QueueClosed
    ensures forall step: Step | Enabled(s, step) ::
              Exec(cfg, s, step).closer == QueueClosed && Measure(Exec(cfg, s, step)) < Measure(s)
    ensures s.consumer.Finished? <==> forall step: Step :: !Enabled(s, step)
  {
    InvReachable(cfg, s);
    forall step: Step | Enabled(s, step)
      ensures Exec(cfg, s, step).closer == QueueClosed && Measure(Exec(cfg, s, step)) < Measure(s)
    {
      DrainStep(cfg, s, step);
    }
    match s.consumer
    case Idle => assert Enabled(s, if s.queue == [] then Finish else Take);
    case Took(_) => assert Enabled(s, BeginLine);
    case WroteRecord(_) => assert Enabled(s, EndLine);
    case SavingRequest(_) => assert Enabled(s, SaveRequest);
    case SavingResponse(_) => assert Enabled(s, SaveResponse);
    case Finished =>
  }
}
