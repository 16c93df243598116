/** The relay of one accepted socket as an interleaving of three goroutines:
    the one that runs Proxy and fullduplex, and the two pipes. */
module RelayMachine {
  import opened Text
  import opened RelayStream

  /** Outbound copies lconn to rconn, Inbound copies rconn to lconn. */
  datatype Dir = Outbound | Inbound

  function Other(d: Dir): Dir {
    if d == Outbound then Inbound else Outbound
  }

  /** The configuration of a relay and the bytes each peer has to send. */
  datatype Setup = Setup(eval: Eval, outSide: Side, inSide: Side, hasClient: bool,
                         outWire: Bytes, inWire: Bytes)
  {
    function SideOf(d: Dir): Side { if d == Outbound then outSide else inSide }
    function Wire(d: Dir): Bytes { if d == Outbound then outWire else inWire }
    predicate Admits(reply: Reply) { reply.NoClient? <==> !hasClient }
  }

  /** Program counter of the goroutine running Proxy: it starts the pipes,
      waits on errsig, reports, and runs the deferred closes, last first. */
  datatype MainPc = Starting0 | Starting1 | Waiting | Reporting | ClosingRemote | ClosingLocal | Returned

  /** Program counter of a pipe, with its local variables. `err` is split into
      its check of erred, its send on errsig and its write of erred. */
  datatype PipePc =
    | Unstarted
    | Reading
    | Rewriting(chunk: Bytes, k: nat, b: Bytes)
    | Posting(chunk: Bytes, b: Bytes)
    | Writing(item: Item, b: Bytes)
    | Counting(n: nat)
    | Checking
    | Sending
    | Flagging
    | Exited

  datatype Fault = NoFault | ReadFault | WriteFault

  /** A pipe and the history of its direction.
      taken: the chunks read without error; done: the items written in full;
      delivered: the bytes of completed writes; torn: the bytes a failed write
      delivered; lost: the item of a failed write; dropped: bytes a Read
      returned together with an error; sawErred: what `err` read in erred. */
  datatype Pipe = Pipe(
    pc: PipePc, taken: seq<Bytes>, done: seq<Item>, delivered: Bytes,
    torn: Bytes, lost: Option<Item>, dropped: Bytes,
    counter: Word, fault: Fault, sawErred: Option<bool>)
  {
    function Consumed(): nat { |Flatten(taken)| }
  }

  datatype State = State(
    main: MainPc, outbound: Pipe, inbound: Pipe, erred: bool,
    lclosed: bool, rclosed: bool, meetings: nat, winner: Option<Dir>)
  {
    function P(d: Dir): Pipe { if d == Outbound then outbound else inbound }
    function With(d: Dir, p: Pipe): State {
      if d == Outbound then this.(outbound := p) else this.(inbound := p)
    }
    predicate SrcClosed(d: Dir) { if d == Outbound then lclosed else rclosed }
    predicate DstClosed(d: Dir) { if d == Outbound then rclosed else lclosed }
  }

  const FRESH_PIPE := Pipe(Unstarted, [], [], [], [], None, [], 0, NoFault, None)
  const INITIAL := State(Starting0, FRESH_PIPE, FRESH_PIPE, false, false, false, 0, None)

  /** One atomic action. The environment chooses the sizes and outcomes. */
  datatype Step =
    | Main
    | ReadOk(d: Dir, n: nat)
    | ReadFail(d: Dir, n: nat)
    | Evaluate(d: Dir)
    | Callback(d: Dir)
    | Post(d: Dir, reply: Reply)
    | WriteOk(d: Dir)
    | WriteFail(d: Dir, n: nat)
    | Count(d: Dir)
    | Check(d: Dir)
    | Meet(d: Dir)
    | Flag(d: Dir)

  predicate Enabled(cfg: Setup, s: State, step: Step) {
    match step
    case Main =>
      s.main != Waiting && s.main != Returned
    case ReadOk(d, n) =>
      s.P(d).pc.Reading? && !s.SrcClosed(d) && n <= READ_LIMIT && s.P(d).Consumed() + n <= |cfg.Wire(d)|
    case ReadFail(d, n) =>
      s.P(d).pc.Reading? && n <= READ_LIMIT && s.P(d).Consumed() + n <= |cfg.Wire(d)|
    case Evaluate(d) =>
      s.P(d).pc.Rewriting? && s.P(d).pc.k < |cfg.SideOf(d).exprs|
    case Callback(d) =>
      s.P(d).pc.Rewriting? && s.P(d).pc.k == |cfg.SideOf(d).exprs|
    case Post(d, reply) =>
      s.P(d).pc.Posting? && cfg.Admits(reply)
    case WriteOk(d) =>
      s.P(d).pc.Writing? && !s.DstClosed(d)
    case WriteFail(d, n) =>
      s.P(d).pc.Writing? && n <= |s.P(d).pc.b|
    case Count(d) => s.P(d).pc.Counting?
    case Check(d) => s.P(d).pc.Checking?
    case Meet(d) => s.P(d).pc.Sending? && s.main == Waiting
    case Flag(d) => s.P(d).pc.Flagging?
  }

  function MainExec(s: State): State
    requires s.main != Waiting && s.main != Returned
  {
    match s.main
    case Starting0 => s.(main := Starting1, outbound := s.outbound.(pc := Reading))
    case Starting1 => s.(main := Waiting, inbound := s.inbound.(pc := Reading))
    case Reporting => s.(main := ClosingRemote)
    case ClosingRemote => s.(main := ClosingLocal, rclosed := true)
    case ClosingLocal => s.(main := Returned, lclosed := true)
  }

  /** A pipe's own part of a step. */
  function PipeExec(cfg: Setup, s: State, d: Dir, step: Step): Pipe
    requires Enabled(cfg, s, step) && step != Main && step.d == d
  {
    var p := s.P(d);
    match step
    case ReadOk(_, n) =>
      var chunk := cfg.Wire(d)[p.Consumed()..p.Consumed() + n];
      p.(pc := Rewriting(chunk, 0, chunk), taken := p.taken + [chunk])
    case ReadFail(_, n) =>
      p.(pc := Checking, fault := ReadFault, dropped := cfg.Wire(d)[p.Consumed()..p.Consumed() + n])
    case Evaluate(_) =>
      p.(pc := Rewriting(p.pc.chunk, p.pc.k + 1, EvalOr(cfg.eval, cfg.SideOf(d).exprs[p.pc.k], p.pc.b)))
    case Callback(_) =>
      p.(pc := Posting(p.pc.chunk, match cfg.SideOf(d).callback case None => p.pc.b case Some(f) => f(p.pc.b)))
    case Post(_, reply) =>
      p.(pc := Writing(Item(p.pc.chunk, reply), if reply.PostBody? then reply.body else p.pc.b))
    case WriteOk(_) =>
      p.(pc := Counting(|p.pc.b|), done := p.done + [p.pc.item], delivered := p.delivered + p.pc.b)
    case WriteFail(_, n) =>
      p.(pc := Checking, fault := WriteFault, torn := p.pc.b[..n], lost := Some(p.pc.item))
    case Count(_) =>
      p.(pc := Reading, counter := Wrap(p.counter + p.pc.n))
    case Check(_) =>
      p.(pc := if s.erred then Exited else Sending, sawErred := Some(s.erred))
    case Meet(_) => p.(pc := Flagging)
    case Flag(_) => p.(pc := Exited)
  }

  function Exec(cfg: Setup, s: State, step: Step): State
    requires Enabled(cfg, s, step)
  {
    if step == Main then MainExec(s)
    else
      var t := s.With(step.d, PipeExec(cfg, s, step.d, step));
      match step
      case Meet(d) => t.(main := Reporting, meetings := s.meetings + 1, winner := Some(d))
      case Flag(d) => t.(erred := true)
      case _ => t
  }

  /** A run: every step is enabled where it is taken. */
  predicate Runs(cfg: Setup, s: State, steps: seq<Step>)
    decreases |steps|
  {
    steps == [] || (Enabled(cfg, s, steps[0]) && Runs(cfg, Exec(cfg, s, steps[0]), steps[1..]))
  }

  function After(cfg: Setup, s: State, steps: seq<Step>): State
    requires Runs(cfg, s, steps)
    decreases |steps|
  {
    if steps == [] then s else After(cfg, Exec(cfg, s, steps[0]), steps[1..])
  }

  /** The states of all interleavings. */
  ghost predicate Reachable(cfg: Setup, s: State) {
    exists steps: seq<Step> :: Runs(cfg, INITIAL, steps) && After(cfg, INITIAL, steps) == s
  }

  lemma {:induction false} RunsAppend(cfg: Setup, s: State, a: seq<Step>, b: seq<Step>)
    ensures Runs(cfg, s, a + b) <==> Runs(cfg, s, a) && Runs(cfg, After(cfg, s, a), b)
    ensures Runs(cfg, s, a + b) ==> After(cfg, s, a + b) == After(cfg, After(cfg, s, a), b)
    decreases |a|
  {
    if a == [] {
      assert a + b == b;
    } else {
      assert (a + b)[1..] == a[1..] + b;
      if Enabled(cfg, s, a[0]) {
        RunsAppend(cfg, Exec(cfg, s, a[0]), a[1..], b);
      }
    }
  }
}
