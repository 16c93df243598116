/** What the relay delivers, over every interleaving: each direction is a
    function of the chunks read in that direction, and the byte counters. */
module RelayRefinement {
  import opened Text
  import opened RelayStream
  import opened RelayMachine
  import opened RelayShutdown

  /** The chunk read but not yet written, or whose write failed. */
  function Pending(p: Pipe): seq<Bytes> {
    match p.pc
    case Rewriting(chunk, _, _) => [chunk]
    case Posting(chunk, _) => [chunk]
    case Writing(item, _) => [item.chunk]
    case _ => match p.lost case None => [] case Some(item) => [item.chunk]
  }

  /** The chunks read without error are cuts of the wire, in order; every one
      but the last is written in full, as its transform. */
  ghost predicate Stream(cfg: Setup, d: Dir, p: Pipe) {
    && Readable(p.taken)
    && Flatten(p.taken) <= cfg.Wire(d)
    && p.taken == Chunks(p.done) + Pending(p)
    && p.delivered == Relayed(cfg.eval, cfg.SideOf(d), p.done)
    && (forall i | 0 <= i < |p.done| :: cfg.Admits(p.done[i].reply))
  }

  /** The local variables of the pipe hold the partly transformed chunk. */
  ghost predicate Stage(cfg: Setup, d: Dir, p: Pipe) {
    var exprs := cfg.SideOf(d).exprs;
    match p.pc
    case Rewriting(chunk, k, b) =>
      k <= |exprs| && DslFold(cfg.eval, exprs[k..], b) == DslFold(cfg.eval, exprs, chunk)
    case Posting(chunk, b) => b == Rewritten(cfg.eval, cfg.SideOf(d), chunk)
    case Writing(item, b) => cfg.Admits(item.reply) && b == Transform(cfg.eval, cfg.SideOf(d), item)
    case _ => true
  }

  /** A failed write is the last action on the stream: it delivered a prefix. */
  ghost predicate Tail(cfg: Setup, d: Dir, p: Pipe) {
    && (p.lost.Some? <==> p.fault == WriteFault)
    && (p.fault != NoFault <==> p.pc.Checking? || p.pc.Sending? || p.pc.Flagging? || p.pc.Exited?)
    && (p.fault != ReadFault ==> p.dropped == [])
    && (match p.lost
        case None => p.torn == []
        case Some(item) => p.torn <= Transform(cfg.eval, cfg.SideOf(d), item))
  }

  /** The counter lags the delivered bytes by the write being counted. */
  predicate Counted(p: Pipe) {
    match p.pc
    case Counting(n) => n <= |p.delivered| && p.counter == Wrap(|p.delivered| - n)
    case _ => p.counter == Wrap(|p.delivered|)
  }

  ghost predicate Data(cfg: Setup, d: Dir, p: Pipe) {
    Stream(cfg, d, p) && Stage(cfg, d, p) && Tail(cfg, d, p) && Counted(p)
  }

  lemma StreamRead(cfg: Setup, s: State, d: Dir, n: nat)
    requires Enabled(cfg, s, ReadOk(d, n)) && Data(cfg, d, s.P(d))
    ensures Stream(cfg, d, PipeExec(cfg, s, d, ReadOk(d, n)))
  {
    var p, p' := s.P(d), PipeExec(cfg, s, d, ReadOk(d, n));
    var chunk := cfg.Wire(d)[p.Consumed()..p.Consumed() + n];
    FlattenAppend(p.taken, [chunk]);
    assert Flatten([chunk]) == chunk;
    assert Flatten(p'.taken) == cfg.Wire(d)[..p.Consumed() + n];
  }

  lemma StreamWrite(cfg: Setup, s: State, d: Dir)
    requires Enabled(cfg, s, WriteOk(d)) && Data(cfg, d, s.P(d))
    ensures Stream(cfg, d, PipeExec(cfg, s, d, WriteOk(d)))
  {
    var p, p' := s.P(d), PipeExec(cfg, s, d, WriteOk(d));
    RelayedAppend(cfg.eval, cfg.SideOf(d), p.done, [p.pc.item]);
    assert Relayed(cfg.eval, cfg.SideOf(d), [p.pc.item]) == p.pc.b;
    assert Chunks(p'.done) == Chunks(p.done) + [p.pc.item.chunk];
  }

  /** The steps that neither take a chunk nor finish one. */
  lemma StreamSame(cfg: Setup, s: State, step: Step)
    requires Enabled(cfg, s, step) && step != Main && !step.ReadOk? && !step.WriteOk?
    requires Tail(cfg, step.d, s.P(step.d))
    ensures var p, p' := s.P(step.d), PipeExec(cfg, s, step.d, step);
            p'.taken == p.taken && p'.done == p.done && p'.delivered == p.delivered && Pending(p') == Pending(p)
  {
    hide Transform, Flatten, EvalOr;
  }

  lemma StreamStep(cfg: Setup, s: State, step: Step)
    requires Enabled(cfg, s, step) && step != Main && Data(cfg, step.d, s.P(step.d))
    ensures Stream(cfg, step.d, PipeExec(cfg, s, step.d, step))
  {
    hide Pending, PipeExec, Enabled, Stage, Tail, Counted;
    if step.ReadOk? {
      StreamRead(cfg, s, step.d, step.n);
    } else if step.WriteOk? {
      StreamWrite(cfg, s, step.d);
    } else {
      StreamSame(cfg, s, step);
    }
  }

  lemma StageStep(cfg: Setup, s: State, step: Step)
    requires Enabled(cfg, s, step) && step != Main && Data(cfg, step.d, s.P(step.d))
    ensures Stage(cfg, step.d, PipeExec(cfg, s, step.d, step))
  {
  }

  lemma TailStep(cfg: Setup, s: State, step: Step)
    requires Enabled(cfg, s, step) && step != Main && Data(cfg, step.d, s.P(step.d))
    ensures Tail(cfg, step.d, PipeExec(cfg, s, step.d, step))
  {
  }

  lemma CountedStep(cfg: Setup, s: State, step: Step)
    requires Enabled(cfg, s, step) && step != Main && Data(cfg, step.d, s.P(step.d))
    ensures Counted(PipeExec(cfg, s, step.d, step))
  {
    if step.Count? {
      var p := s.P(step.d);
      WrapAdd(|p.delivered| - p.pc.n, p.pc.n);
    }
  }

  lemma DataMain(cfg: Setup, s: State, d: Dir)
    requires Control(s) && Enabled(cfg, s, Main) && Data(cfg, d, s.P(d))
    ensures Data(cfg, d, Exec(cfg, s, Main).P(d))
  {
  }

  lemma PipeDataStep(cfg: Setup, s: State, step: Step)
    requires Enabled(cfg, s, step) && step != Main && Data(cfg, step.d, s.P(step.d))
    ensures Data(cfg, step.d, PipeExec(cfg, s, step.d, step))
  {
    StreamStep(cfg, s, step);
    StageStep(cfg, s, step);
    TailStep(cfg, s, step);
    CountedStep(cfg, s, step);
  }

  lemma DataStep(cfg: Setup, s: State, step: Step, d: Dir)
    requires Control(s) && Enabled(cfg, s, step) && Data(cfg, d, s.P(d))
    ensures Data(cfg, d, Exec(cfg, s, step).P(d))
  {
    hide Data, PipeExec, MainExec, Enabled, Control;
    if step == Main {
      DataMain(cfg, s, d);
    } else {
      MovedPipe(cfg, s, step);
      if step.d == d {
        PipeDataStep(cfg, s, step);
      } else {
        assert d == Other(step.d);
      }
    }
  }

  lemma {:induction false} DataRun(cfg: Setup, s: State, steps: seq<Step>, d: Dir)
    requires Control(s) && Data(cfg, d, s.P(d)) && Runs(cfg, s, steps)
    ensures Data(cfg, d, After(cfg, s, steps).P(d))
    decreases |steps|
  {
    if steps != [] {
      ControlStep(cfg, s, steps[0]);
      DataStep(cfg, s, steps[0], d);
      DataRun(cfg, Exec(cfg, s, steps[0]), steps[1..], d);
    }
  }

  lemma DataReachable(cfg: Setup, s: State, d: Dir)
    requires Reachable(cfg, s)
    ensures Data(cfg, d, s.P(d))
  {
    var steps :| Runs(cfg, INITIAL, steps) && After(cfg, INITIAL, steps) == s;
    assert Data(cfg, d, FRESH_PIPE);
    DataRun(cfg, INITIAL, steps, d);
  }

  // ----- main results ---------------------------------------------------

  /** In every reachable state of every interleaving: the chunks read in a
      direction are consecutive pieces of that direction's wire, of at most
      0xffff bytes; completed writes delivered exactly the transforms of all
      of them but at most the last; a failed write delivered a prefix of the
      last one's transform; bytes that came with a read error went nowhere. */
  lemma StreamRefinement(cfg: Setup, s: State, d: Dir)
    requires Reachable(cfg, s)
    ensures var p := s.P(d);
            && Flatten(p.taken) <= cfg.Wire(d)
            && (forall i | 0 <= i < |p.taken| :: |p.taken[i]| <= READ_LIMIT)
            && |p.done| <= |p.taken| <= |p.done| + 1
            && p.taken[..|p.done|] == Chunks(p.done)
            && p.delivered == Relayed(cfg.eval, cfg.SideOf(d), p.done)
            && (p.lost.None? ==> p.torn == [])
            && (p.lost.Some? ==> p.torn <= Transform(cfg.eval, cfg.SideOf(d), p.lost.value) &&
                                 p.taken == Chunks(p.done) + [p.lost.value.chunk])
            && (p.fault == ReadFault ==> p.taken == Chunks(p.done))
  {
    DataReachable(cfg, s, d);
    var p := s.P(d);
    assert p.taken[..|p.done|] == Chunks(p.done);
  }

  /** The same of each direction by its own configuration: from lconn to rconn
      with the request side, from rconn to lconn with the response side, by
      reads of at most 0xffff bytes. */
  lemma EachDirection(cfg: Setup, s: State)
    requires Reachable(cfg, s)
    ensures Flatten(s.outbound.taken) <= cfg.outWire && Flatten(s.inbound.taken) <= cfg.inWire
    ensures s.outbound.delivered == Relayed(cfg.eval, cfg.outSide, s.outbound.done)
    ensures s.inbound.delivered == Relayed(cfg.eval, cfg.inSide, s.inbound.done)
    ensures forall i | 0 <= i < |s.outbound.taken| :: |s.outbound.taken[i]| <= 0xffff
    ensures forall i | 0 <= i < |s.inbound.taken| :: |s.inbound.taken[i]| <= 0xffff
  {
    StreamRefinement(cfg, s, Outbound);
    StreamRefinement(cfg, s, Inbound);
  }

  /** Reads fail on a closed source and writes on a closed destination. */
  lemma ClosedEnds(cfg: Setup, s: State, n: nat)
    ensures s.lclosed ==> !Enabled(cfg, s, ReadOk(Outbound, n)) && !Enabled(cfg, s, WriteOk(Inbound))
    ensures s.rclosed ==> !Enabled(cfg, s, ReadOk(Inbound, n)) && !Enabled(cfg, s, WriteOk(Outbound))
  {
  }

  /** The counters, modulo 2^64 and without the write about to be counted;
      as long as they have not wrapped they never exceed what was delivered. */
  lemma CountersExact(cfg: Setup, s: State, d: Dir)
    requires Reachable(cfg, s)
    ensures var p := s.P(d);
            var total, word := |Relayed(cfg.eval, cfg.SideOf(d), p.done)|, 0x1_0000_0000_0000_0000;
            && (!p.pc.Counting? ==> p.counter == total % word)
            && (p.pc.Counting? ==> p.pc.n <= total && p.counter == (total - p.pc.n) % word)
            && (total < word ==> p.counter <= |p.delivered + p.torn|)
  {
    DataReachable(cfg, s, d);
    var total := |s.P(d).delivered|;
    WrapIsMod(total);
    if s.P(d).pc.Counting? {
      WrapIsMod(total - s.P(d).pc.n);
    }
  }

  /** The bytes a side transforms without an HTTP client. */
  function Plain(cfg: Setup, d: Dir): Bytes -> Bytes {
    c => Rewritten(cfg.eval, cfg.SideOf(d), c)
  }

  /** Two relays with the same side, or two schedules of one relay: if the
      side distributes over concatenation, then having read the same stream
      and having nothing in flight they have delivered the same bytes, however
      the reads were cut. */
  lemma DeliveryIgnoresCuts(cfg: Setup, s: State, s': State, d: Dir)
    requires Reachable(cfg, s) && Reachable(cfg, s')
    requires !cfg.hasClient && Homomorphic(Plain(cfg, d))
    requires s.P(d).pc.Reading? && s'.P(d).pc.Reading?
    requires s.P(d).Consumed() == s'.P(d).Consumed()
    ensures s.P(d).delivered == s'.P(d).delivered
  {
    DeliveredIsOutput(cfg, s, d);
    DeliveredIsOutput(cfg, s', d);
    IndependentIffHomomorphic(Plain(cfg, d));
    var a, b := s.P(d).taken, s'.P(d).taken;
    DataReachable(cfg, s, d);
    DataReachable(cfg, s', d);
    assert Flatten(a) == cfg.Wire(d)[..|Flatten(a)|] == Flatten(b);
  }

  lemma DeliveredIsOutput(cfg: Setup, s: State, d: Dir)
    requires Reachable(cfg, s) && !cfg.hasClient && s.P(d).pc.Reading?
    ensures s.P(d).delivered == Output(Plain(cfg, d), s.P(d).taken)
  {
    DataReachable(cfg, s, d);
    RelayedIsOutput(cfg.eval, cfg.SideOf(d), s.P(d).done);
    assert s.P(d).taken == Chunks(s.P(d).done);
  }

  /** With no rewriting at all the relay is transparent. */
  lemma PlainRelayIsTransparent(cfg: Setup, s: State, d: Dir)
    requires Reachable(cfg, s) && !cfg.hasClient && cfg.SideOf(d) == Side([], None)
    requires s.P(d).pc.Reading?
    ensures s.P(d).delivered == Flatten(s.P(d).taken) <= cfg.Wire(d)
  {
    DeliveredIsOutput(cfg, s, d);
    DataReachable(cfg, s, d);
    OutputOfIdentity(Plain(cfg, d), s.P(d).taken);
  }

  lemma {:induction false} OutputOfIdentity(t: Bytes -> Bytes, chunks: seq<Bytes>)
    requires forall c: Bytes :: t(c) == c
    ensures Output(t, chunks) == Flatten(chunks)
  {
    if chunks != [] {
      OutputOfIdentity(t, chunks[1..]);
    }
  }
}
