/** The code of a pipe is a run of the machine: whatever its peers do, the
    steps of one direction alone lead the machine where the code ends. So what
    is proved of every run of the machine holds of the code of a pipe. */
module RelaySolo {
  import opened Text
  import opened RelayStream
  import opened RelayMachine
  import opened SocketConn

  function Evaluations(d: Dir, n: nat): seq<Step> {
    if n == 0 then [] else [Evaluate(d)] + Evaluations(d, n - 1)
  }

  /** The steps of an iteration up to its write. */
  function Prepare(cfg: Setup, d: Dir, item: Item): seq<Step> {
    [ReadOk(d, |item.chunk|)] + (Evaluations(d, |cfg.SideOf(d).exprs|) + [Callback(d), Post(d, item.reply)])
  }

  /** Two runs in a row. */
  lemma Then(cfg: Setup, s: State, a: seq<Step>, t: State, b: seq<Step>, u: State)
    requires Runs(cfg, s, a) && After(cfg, s, a) == t
    requires Runs(cfg, t, b) && After(cfg, t, b) == u
    ensures Runs(cfg, s, a + b) && After(cfg, s, a + b) == u
  {
    RunsAppend(cfg, s, a, b);
  }

  lemma One(cfg: Setup, s: State, step: Step)
    requires Enabled(cfg, s, step)
    ensures Runs(cfg, s, [step]) && After(cfg, s, [step]) == Exec(cfg, s, step)
  {
  }

  lemma {:induction false} EvaluationsRun(cfg: Setup, s: State, d: Dir, n: nat)
    requires var pc := s.P(d).pc; pc.Rewriting? && pc.k + n == |cfg.SideOf(d).exprs|
    ensures var pc, exprs := s.P(d).pc, cfg.SideOf(d).exprs;
            var t := s.With(d, s.P(d).(pc := Rewriting(pc.chunk, |exprs|, DslFold(cfg.eval, exprs[pc.k..], pc.b))));
            Runs(cfg, s, Evaluations(d, n)) && After(cfg, s, Evaluations(d, n)) == t
    decreases n
  {
    var pc, exprs := s.P(d).pc, cfg.SideOf(d).exprs;
    if n == 0 {
      assert exprs[pc.k..] == [];
      assert s.With(d, s.P(d)) == s;
    } else {
      var t := Exec(cfg, s, Evaluate(d));
      EvaluationsRun(cfg, t, d, n - 1);
      assert exprs[pc.k..][1..] == exprs[pc.k + 1..];
      One(cfg, s, Evaluate(d));
      Then(cfg, s, [Evaluate(d)], t, Evaluations(d, n - 1), After(cfg, t, Evaluations(d, n - 1)));
    }
  }

  /** What a read of the direction can return at a position of its wire. */
  predicate Piece(cfg: Setup, d: Dir, at: nat, chunk: Bytes) {
    |chunk| <= READ_LIMIT && at + |chunk| <= |cfg.Wire(d)| && chunk == cfg.Wire(d)[at..at + |chunk|]
  }

  /** A pipe at the top of its loop on open connections. */
  predicate Ready(s: State, d: Dir) {
    s.P(d).pc.Reading? && !s.lclosed && !s.rclosed
  }

  function Prepared(cfg: Setup, s: State, d: Dir, item: Item): State {
    var p := s.P(d);
    s.With(d, p.(pc := Writing(item, Transform(cfg.eval, cfg.SideOf(d), item)), taken := p.taken + [item.chunk]))
  }

  lemma PrepareRuns(cfg: Setup, s: State, d: Dir, item: Item)
    requires Ready(s, d) && Piece(cfg, d, s.P(d).Consumed(), item.chunk) && cfg.Admits(item.reply)
    ensures Runs(cfg, s, Prepare(cfg, d, item)) && After(cfg, s, Prepare(cfg, d, item)) == Prepared(cfg, s, d, item)
  {
    var exprs := cfg.SideOf(d).exprs;
    var read := ReadOk(d, |item.chunk|);
    var t := Exec(cfg, s, read);
    One(cfg, s, read);
    EvaluationsRun(cfg, t, d, |exprs|);
    assert exprs[0..] == exprs;
    var u := After(cfg, t, Evaluations(d, |exprs|));
    var v := Exec(cfg, u, Callback(d));
    var w := Exec(cfg, v, Post(d, item.reply));
    assert w == Prepared(cfg, s, d, item);
    One(cfg, u, Callback(d));
    One(cfg, v, Post(d, item.reply));
    Then(cfg, u, [Callback(d)], v, [Post(d, item.reply)], w);
    assert [Callback(d)] + [Post(d, item.reply)] == [Callback(d), Post(d, item.reply)];
    Then(cfg, t, Evaluations(d, |exprs|), u, [Callback(d), Post(d, item.reply)], w);
    Then(cfg, s, [read], t, Evaluations(d, |exprs|) + [Callback(d), Post(d, item.reply)], w);
  }

  function Iterated(cfg: Setup, s: State, d: Dir, item: Item): State {
    var p, b := s.P(d), Transform(cfg.eval, cfg.SideOf(d), item);
    s.With(d, p.(taken := p.taken + [item.chunk], done := p.done + [item],
                 delivered := p.delivered + b, counter := Wrap(p.counter + |b|)))
  }

  lemma IterationRuns(cfg: Setup, s: State, d: Dir, item: Item) returns (steps: seq<Step>)
    requires Ready(s, d) && Piece(cfg, d, s.P(d).Consumed(), item.chunk) && cfg.Admits(item.reply)
    ensures Runs(cfg, s, steps) && After(cfg, s, steps) == Iterated(cfg, s, d, item)
  {
    PrepareRuns(cfg, s, d, item);
    var t := Prepared(cfg, s, d, item);
    var u := Exec(cfg, t, WriteOk(d));
    One(cfg, t, WriteOk(d));
    One(cfg, u, Count(d));
    Then(cfg, t, [WriteOk(d)], u, [Count(d)], Iterated(cfg, s, d, item));
    Then(cfg, s, Prepare(cfg, d, item), t, [WriteOk(d)] + [Count(d)], Iterated(cfg, s, d, item));
    steps := Prepare(cfg, d, item) + ([WriteOk(d)] + [Count(d)]);
  }

  /** The arrivals, up to the failed one, cut the wire from a position on. */
  predicate Cuts(cfg: Setup, d: Dir, at: nat, arrivals: seq<Arrival>)
    decreases |arrivals|
  {
    arrivals == [] || arrivals[0].Failed? ||
    (Piece(cfg, d, at, arrivals[0].bytes) && Cuts(cfg, d, at + |arrivals[0].bytes|, arrivals[1..]))
  }

  /** Where the code of a pipe ends, in the machine's terms; partial is how much
      a failing write delivers. */
  predicate EndsAs(cfg: Setup, p: Pipe, z: Pipe, side: Side, arrivals: seq<Arrival>, accepts: nat,
                   bodies: Option<seq<Option<Bytes>>>, partial: nat)
  {
    var out := Relayed(cfg.eval, side, Items(arrivals, accepts, bodies));
    && z.pc.Checking?
    && z.done == p.done + Items(arrivals, accepts, bodies)
    && z.delivered == p.delivered + out
    && z.torn == (if ReadEnds(arrivals, accepts) then p.torn
                  else Partial(Torn(cfg.eval, side, arrivals, accepts, bodies), partial))
    && z.counter == Wrap(p.counter + |out|)
    && z.fault == if ReadEnds(arrivals, accepts) then ReadFault else WriteFault
  }

  lemma ReadEnd(cfg: Setup, s: State, d: Dir) returns (steps: seq<Step>)
    requires Ready(s, d) && s.P(d).Consumed() <= |cfg.Wire(d)|
    ensures Runs(cfg, s, steps) && After(cfg, s, steps) == s.With(d, s.P(d).(pc := Checking, fault := ReadFault, dropped := []))
  {
    steps := [ReadFail(d, 0)];
    One(cfg, s, ReadFail(d, 0));
    assert cfg.Wire(d)[s.P(d).Consumed()..s.P(d).Consumed()] == [];
  }

  lemma WriteEnd(cfg: Setup, s: State, d: Dir, item: Item, partial: nat) returns (steps: seq<Step>)
    requires Ready(s, d) && Piece(cfg, d, s.P(d).Consumed(), item.chunk) && cfg.Admits(item.reply)
    ensures Runs(cfg, s, steps)
    ensures var p, b := s.P(d), Transform(cfg.eval, cfg.SideOf(d), item);
            After(cfg, s, steps) == s.With(d, p.(pc := Checking, taken := p.taken + [item.chunk],
                                                 fault := WriteFault, torn := Partial(b, partial), lost := Some(item)))
  {
    PrepareRuns(cfg, s, d, item);
    var t := Prepared(cfg, s, d, item);
    var b := t.P(d).pc.b;
    var n := |Partial(b, partial)|;
    assert b[..n] == Partial(b, partial);
    One(cfg, t, WriteFail(d, n));
    Then(cfg, s, Prepare(cfg, d, item), t, [WriteFail(d, n)], Exec(cfg, t, WriteFail(d, n)));
    steps := Prepare(cfg, d, item) + [WriteFail(d, n)];
  }

  lemma Associative<T>(a: seq<T>, b: seq<T>, c: seq<T>)
    ensures a + b + c == a + (b + c)
  {
  }

  /** One relayed item in front of an end. */
  lemma EndsAfter(cfg: Setup, p: Pipe, item: Item, q: Pipe, z: Pipe, side: Side, arrivals: seq<Arrival>,
                  accepts: nat, bodies: Option<seq<Option<Bytes>>>, partial: nat)
    requires arrivals != [] && arrivals[0].Data? && accepts > 0
    requires item == Item(arrivals[0].bytes, ReplyOf(bodies))
    requires q.done == p.done + [item] && q.delivered == p.delivered + Transform(cfg.eval, side, item)
    requires q.torn == p.torn && q.counter == Wrap(p.counter + |Transform(cfg.eval, side, item)|)
    requires EndsAs(cfg, q, z, side, arrivals[1..], accepts - 1, Rest(bodies), partial)
    ensures EndsAs(cfg, p, z, side, arrivals, accepts, bodies, partial)
  {
    var b := Transform(cfg.eval, side, item);
    var rest := Relayed(cfg.eval, side, Items(arrivals[1..], accepts - 1, Rest(bodies)));
    var items := Items(arrivals[1..], accepts - 1, Rest(bodies));
    hide Transform, Wrap, Relayed, Items, Torn, ReadEnds, Partial, Rest, ReplyOf;
    Unfold(cfg.eval, side, arrivals, accepts, bodies);
    Associative(p.delivered, b, rest);
    Associative(p.done, [item], items);
    WrapAdd(p.counter + |b|, |rest|);
  }

  /** Every script of reads, writes and answers has a run of its direction
      alone that relays, counts and fails as the code does on that script,
      down to the bytes of a failing write, and leaves the rest of the machine
      untouched. */
  lemma {:induction false} CodeIsARun(cfg: Setup, s: State, d: Dir, arrivals: seq<Arrival>, accepts: nat,
                                      bodies: Option<seq<Option<Bytes>>>, partial: nat)
    returns (steps: seq<Step>)
    requires Ready(s, d) && s.P(d).Consumed() <= |cfg.Wire(d)|
    requires Cuts(cfg, d, s.P(d).Consumed(), arrivals) && (bodies.Some? <==> cfg.hasClient)
    ensures Runs(cfg, s, steps)
    ensures var z := After(cfg, s, steps);
            z == s.With(d, z.P(d)) &&
            EndsAs(cfg, s.P(d), z.P(d), cfg.SideOf(d), arrivals, accepts, bodies, partial)
    decreases |arrivals|
  {
    hide Runs, After, Transform, Relayed, Items, Torn, ReadEnds;
    Unfold(cfg.eval, cfg.SideOf(d), arrivals, accepts, bodies);
    if arrivals == [] || arrivals[0].Failed? {
      steps := ReadEnd(cfg, s, d);
    } else {
      var item := Item(arrivals[0].bytes, ReplyOf(bodies));
      if accepts == 0 {
        steps := WriteEnd(cfg, s, d, item, partial);
      } else {
        var p := s.P(d);
        var first := IterationRuns(cfg, s, d, item);
        var t := Iterated(cfg, s, d, item);
        FlattenAppend(p.taken, [item.chunk]);
        assert Flatten([item.chunk]) == item.chunk;
        var rest := CodeIsARun(cfg, t, d, arrivals[1..], accepts - 1, Rest(bodies), partial);
        var z := After(cfg, t, rest);
        Then(cfg, s, first, t, rest, z);
        EndsAfter(cfg, p, item, t.P(d), z.P(d), cfg.SideOf(d), arrivals, accepts, bodies, partial);
        steps := first + rest;
      }
    }
  }
}
