/** What one direction of the socket relay does to its byte stream:
    the rewriting of a chunk, the concatenation of the rewritten chunks, and
    when the result does not depend on how reads cut the stream. */
module RelayStream {
  import opened Text

  newtype byte = x: int | 0 <= x < 256
  type Bytes = seq<byte>

  /** Size of the read buffer of a pipe. */
  const READ_LIMIT: nat := 0xffff

  /** Go's uint64. */
  const WORD: nat := 0x1_0000_0000_0000_0000
  type Word = x: nat | x < WORD

  /** Evaluation of one DSL expression over a chunk; None is an evaluation error. */
  type Eval = (string, Bytes) -> Option<Bytes>

  /** The configuration of one direction: its DSL list and optional callback. */
  datatype Side = Side(exprs: seq<string>, callback: Option<Bytes -> Bytes>)

  /** Outcome of the optional HTTP round trip of one chunk. */
  datatype Reply = NoClient | PostFailed | PostBody(body: Bytes)

  /** A chunk read without error, with the outcome of its round trip. */
  datatype Item = Item(chunk: Bytes, reply: Reply)

  /** A failing expression leaves the data as it was. */
  function EvalOr(eval: Eval, expr: string, b: Bytes): Bytes {
    match eval(expr, b)
    case None => b
    case Some(v) => v
  }

  function DslFold(eval: Eval, exprs: seq<string>, b: Bytes): Bytes {
    if exprs == [] then b else DslFold(eval, exprs[1..], EvalOr(eval, exprs[0], b))
  }

  function Rewritten(eval: Eval, side: Side, chunk: Bytes): Bytes {
    var b := DslFold(eval, side.exprs, chunk);
    match side.callback
    case None => b
    case Some(f) => f(b)
  }

  /** The bytes handed to the destination's Write for one item. */
  function Transform(eval: Eval, side: Side, item: Item): Bytes {
    match item.reply
    case PostBody(body) => body
    case _ => Rewritten(eval, side, item.chunk)
  }

  function Flatten(parts: seq<Bytes>): Bytes {
    if parts == [] then [] else parts[0] + Flatten(parts[1..])
  }

  function Chunks(items: seq<Item>): (r: seq<Bytes>)
    ensures |r| == |items|
    ensures forall i | 0 <= i < |items| :: r[i] == items[i].chunk
  {
    seq(|items|, i requires 0 <= i < |items| => items[i].chunk)
  }

  /** The output stream of a direction: the transformed items in order. */
  function Relayed(eval: Eval, side: Side, items: seq<Item>): Bytes {
    if items == [] then []
    else Transform(eval, side, items[0]) + Relayed(eval, side, items[1..])
  }

  /** The concatenation of a chunk function over a list of chunks. */
  function Output(t: Bytes -> Bytes, chunks: seq<Bytes>): Bytes {
    if chunks == [] then [] else t(chunks[0]) + Output(t, chunks[1..])
  }

  // ----- the DSL loop ---------------------------------------------------

  /** The rewriting part of one iteration of a pipe: the DSL loop, then the
      callback. */
  method RewriteChunk(eval: Eval, side: Side, chunk: Bytes) returns (b: Bytes)
    ensures b == Rewritten(eval, side, chunk)
  {
    b := chunk;
    var i := 0;
    while i < |side.exprs|
      invariant 0 <= i <= |side.exprs|
      invariant DslFold(eval, side.exprs[i..], b) == DslFold(eval, side.exprs, chunk)
    {
      var v := eval(side.exprs[i], b);
      if v.Some? {
        b := v.value;
      }
      i := i + 1;
    }
    if side.callback.Some? {
      b := side.callback.value(b);
    }
  }

  /** The body of an answered round trip replaces the rewritten chunk. */
  lemma TransformOf(eval: Eval, side: Side, chunk: Bytes, reply: Reply)
    ensures reply.PostBody? ==> Transform(eval, side, Item(chunk, reply)) == reply.body
    ensures !reply.PostBody? ==> Transform(eval, side, Item(chunk, reply)) == Rewritten(eval, side, chunk)
  {
  }

  /** The data between the expressions of a list: each is what the one before
      made of it, or what it was where that failed. */
  ghost predicate Stages(eval: Eval, exprs: seq<string>, bs: seq<Bytes>) {
    |bs| == |exprs| + 1 &&
    forall i | 0 <= i < |exprs| ::
      match eval(exprs[i], bs[i])
      case None => bs[i + 1] == bs[i]
      case Some(v) => bs[i + 1] == v
  }

  lemma {:induction false} FoldOfStages(eval: Eval, exprs: seq<string>, bs: seq<Bytes>)
    requires Stages(eval, exprs, bs)
    ensures DslFold(eval, exprs, bs[0]) == bs[|exprs|]
  {
    if exprs != [] {
      assert Stages(eval, exprs[1..], bs[1..]) by {
        assert forall i | 0 <= i < |exprs[1..]| :: exprs[1..][i] == exprs[i + 1];
        assert forall i | 0 <= i < |bs[1..]| :: bs[1..][i] == bs[i + 1];
      }
      FoldOfStages(eval, exprs[1..], bs[1..]);
    }
  }

  /** A chunk goes through the expressions in order and then the callback. */
  lemma RewrittenStages(eval: Eval, side: Side, bs: seq<Bytes>)
    requires Stages(eval, side.exprs, bs)
    ensures side.callback.None? ==> Rewritten(eval, side, bs[0]) == bs[|side.exprs|]
    ensures side.callback.Some? ==> Rewritten(eval, side, bs[0]) == side.callback.value(bs[|side.exprs|])
  {
    FoldOfStages(eval, side.exprs, bs);
  }

  /** Rewriting with es1 + es2 is rewriting with es1, then with es2. */
  lemma {:induction false} DslFoldAppend(eval: Eval, es1: seq<string>, es2: seq<string>, b: Bytes)
    ensures DslFold(eval, es1 + es2, b) == DslFold(eval, es2, DslFold(eval, es1, b))
  {
    if es1 == [] {
      assert es1 + es2 == es2;
    } else {
      assert (es1 + es2)[1..] == es1[1..] + es2;
      DslFoldAppend(eval, es1[1..], es2, EvalOr(eval, es1[0], b));
    }
  }

  /** An expression that fails on the data that reaches it can be left out. */
  lemma FailingExpressionSkipped(eval: Eval, es1: seq<string>, e: string, es2: seq<string>, b: Bytes)
    requires eval(e, DslFold(eval, es1, b)).None?
    ensures DslFold(eval, es1 + [e] + es2, b) == DslFold(eval, es1 + es2, b)
  {
    DslFoldAppend(eval, es1 + [e], es2, b);
    DslFoldAppend(eval, es1, [e], b);
    DslFoldAppend(eval, es1, es2, b);
  }

  // ----- counters -------------------------------------------------------

  /** Conversion of a mathematical integer to uint64. */
  function Wrap(n: nat): Word {
    if n < WORD then n else Wrap(n - WORD)
  }

  lemma {:induction false} WrapIsMod(n: nat)
    ensures Wrap(n) == n % WORD
  {
    if n >= WORD {
      WrapIsMod(n - WORD);
    }
  }

  /** Adding to a wrapped counter wraps the sum. */
  lemma {:induction false} WrapAdd(a: nat, n: nat)
    ensures Wrap(Wrap(a) + n) == Wrap(a + n)
  {
    if a >= WORD {
      WrapAdd(a - WORD, n);
    }
  }

  // ----- concatenation --------------------------------------------------

  lemma {:induction false} FlattenAppend(a: seq<Bytes>, b: seq<Bytes>)
    ensures Flatten(a + b) == Flatten(a) + Flatten(b)
  {
    if a == [] {
      assert a + b == b;
    } else {
      assert (a + b)[1..] == a[1..] + b;
      FlattenAppend(a[1..], b);
    }
  }

  lemma {:induction false} RelayedAppend(eval: Eval, side: Side, a: seq<Item>, b: seq<Item>)
    ensures Relayed(eval, side, a + b) == Relayed(eval, side, a) + Relayed(eval, side, b)
  {
    if a == [] {
      assert a + b == b;
    } else {
      assert (a + b)[1..] == a[1..] + b;
      RelayedAppend(eval, side, a[1..], b);
    }
  }

  lemma {:induction false} OutputAppend(t: Bytes -> Bytes, a: seq<Bytes>, b: seq<Bytes>)
    ensures Output(t, a + b) == Output(t, a) + Output(t, b)
  {
    if a == [] {
      assert a + b == b;
    } else {
      assert (a + b)[1..] == a[1..] + b;
      OutputAppend(t, a[1..], b);
    }
  }

  /** Without an HTTP client the output stream is a chunk function's output. */
  lemma {:induction false} RelayedIsOutput(eval: Eval, side: Side, items: seq<Item>)
    requires forall i | 0 <= i < |items| :: items[i].reply.NoClient?
    ensures Relayed(eval, side, items) == Output(c => Rewritten(eval, side, c), Chunks(items))
  {
    if items != [] {
      RelayedIsOutput(eval, side, items[1..]);
      assert Chunks(items)[1..] == Chunks(items[1..]);
    }
  }

  // ----- chunking independence ------------------------------------------

  /** A list of chunks that reads can return. */
  predicate Readable(chunks: seq<Bytes>) {
    forall i | 0 <= i < |chunks| :: |chunks[i]| <= READ_LIMIT
  }

  /** The output depends only on the stream, not on where reads cut it. */
  ghost predicate ChunkingIndependent(t: Bytes -> Bytes) {
    forall cs: seq<Bytes>, ds: seq<Bytes> | Readable(cs) && Readable(ds) && Flatten(cs) == Flatten(ds) ::
      Output(t, cs) == Output(t, ds)
  }

  /** t distributes over concatenation for pieces that fit one read. */
  ghost predicate Homomorphic(t: Bytes -> Bytes) {
    forall a: Bytes, b: Bytes | |a + b| <= READ_LIMIT :: t(a + b) == t(a) + t(b)
  }

  function Singles(b: Bytes): (r: seq<Bytes>)
    ensures |r| == |b|
    ensures forall i | 0 <= i < |b| :: r[i] == [b[i]]
  {
    seq(|b|, i requires 0 <= i < |b| => [b[i]])
  }

  lemma {:induction false} ChunkAsSingles(t: Bytes -> Bytes, chunk: Bytes)
    requires Homomorphic(t) && |chunk| <= READ_LIMIT
    ensures t(chunk) == Output(t, Singles(chunk))
  {
    if chunk == [] {
      assert chunk + chunk == chunk;
      assert t(chunk) == t(chunk) + t(chunk);
      assert |t(chunk)| == 0;
    } else {
      assert chunk[..1] + chunk[1..] == chunk;
      ChunkAsSingles(t, chunk[1..]);
      assert Singles(chunk)[1..] == Singles(chunk[1..]);
      assert Singles(chunk)[0] == chunk[..1];
    }
  }

  lemma {:induction false} OutputAsSingles(t: Bytes -> Bytes, chunks: seq<Bytes>)
    requires Homomorphic(t) && Readable(chunks)
    ensures Output(t, chunks) == Output(t, Singles(Flatten(chunks)))
  {
    hide Homomorphic;
    if chunks != [] {
      ChunkAsSingles(t, chunks[0]);
      OutputAsSingles(t, chunks[1..]);
      OutputAppend(t, Singles(chunks[0]), Singles(Flatten(chunks[1..])));
      assert Singles(Flatten(chunks)) == Singles(chunks[0]) + Singles(Flatten(chunks[1..]));
    }
  }

  /** The exact condition: rewriting is insensitive to the cuts iff it
      distributes over concatenation. */
  lemma IndependentIffHomomorphic(t: Bytes -> Bytes)
    ensures ChunkingIndependent(t) <==> Homomorphic(t)
  {
    if Homomorphic(t) {
      forall cs: seq<Bytes>, ds: seq<Bytes> | Readable(cs) && Readable(ds) && Flatten(cs) == Flatten(ds)
        ensures Output(t, cs) == Output(t, ds)
      {
        OutputAsSingles(t, cs);
        OutputAsSingles(t, ds);
      }
    }
    if ChunkingIndependent(t) {
      forall a: Bytes, b: Bytes | |a + b| <= READ_LIMIT
        ensures t(a + b) == t(a) + t(b)
      {
        CutIndependent(t, a, b);
      }
    }
  }

  lemma CutIndependent(t: Bytes -> Bytes, a: Bytes, b: Bytes)
    requires ChunkingIndependent(t) && |a + b| <= READ_LIMIT
    ensures t(a + b) == t(a) + t(b)
  {
    var whole, cut := [a + b], [a, b];
    FlattenAppend([a], [b]);
    OutputAppend(t, [a], [b]);
    assert cut == [a] + [b];
    assert Flatten([a]) == a && Flatten([b]) == b && Flatten(whole) == a + b;
    assert Output(t, [a]) == t(a) && Output(t, [b]) == t(b) && Output(t, whole) == t(a + b);
  }

  /** A DSL list can break independence: an expression that replaces the two
      bytes 1, 2 by 3 misses them when a read ends between them. */
  lemma ReplaceSeesCuts(eval: Eval, side: Side)
    requires side == Side(["replace"], None)
    requires forall b: Bytes :: eval("replace", b) == Some(if b == [1, 2] then [3] else b)
    ensures !ChunkingIndependent(c => Rewritten(eval, side, c))
  {
    var t := c => Rewritten(eval, side, c);
    assert t([1, 2]) == [3];
    assert t([1]) == [1] && t([2]) == [2];
    var one: Bytes, two: Bytes := [1], [2];
    assert one + two == [1, 2] && t(one) + t(two) == [1, 2];
    if ChunkingIndependent(t) {
      CutIndependent(t, one, two);
      assert false;
    }
  }
}
