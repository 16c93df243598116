/** The code of one pipe, run to its end by itself, on connections whose reads
    and writes follow a script. */
module SocketConn {
  import opened Text
  import opened RelayStream
  import opened RelayMachine

  datatype Arrival = Data(bytes: Bytes) | Failed

  /** A net.Conn: the outcomes of the reads to come (then end of file), the
      number of writes it will still accept, and the bytes delivered. */
  class Endpoint {
    var arrivals: seq<Arrival>
    var accepts: nat
    var sent: Bytes
    const partial: nat  // bytes delivered by a write that fails

    constructor (arrivals: seq<Arrival>, accepts: nat, partial: nat)
      ensures this.arrivals == arrivals && this.accepts == accepts && this.partial == partial && sent == []
    {
      this.arrivals, this.accepts, this.partial, sent := arrivals, accepts, partial, [];
    }

    method Read() returns (bytes: Bytes, ok: bool)
      modifies this`arrivals
      ensures ok <==> old(arrivals) != [] && old(arrivals)[0].Data?
      ensures ok ==> bytes == old(arrivals)[0].bytes && arrivals == old(arrivals)[1..]
    {
      if arrivals == [] || arrivals[0].Failed? {
        return [], false;
      }
      bytes, ok := arrivals[0].bytes, true;
      arrivals := arrivals[1..];
    }

    method Write(b: Bytes) returns (n: nat, ok: bool)
      modifies this`accepts, this`sent
      ensures ok <==> old(accepts) > 0
      ensures ok ==> n == |b| && sent == old(sent) + b && accepts == old(accepts) - 1
      ensures !ok ==> accepts == 0 && n == (if partial < |b| then partial else |b|) && sent == old(sent) + b[..n]
    {
      ok := accepts > 0;
      n := if ok || |b| <= partial then |b| else partial;
      sent := sent + b[..n];
      if ok {
        accepts := accepts - 1;
      }
    }
  }

  /** The optional HTTP client: the bodies it will answer with, then errors. */
  class Client {
    var bodies: seq<Option<Bytes>>

    constructor (bodies: seq<Option<Bytes>>)
      ensures this.bodies == bodies
    {
      this.bodies := bodies;
    }

    method Post(b: Bytes) returns (r: Option<Bytes>)
      modifies this
      ensures r == if old(bodies) == [] then None else old(bodies)[0]
      ensures bodies == if old(bodies) == [] then [] else old(bodies)[1..]
    {
      if bodies == [] {
        return None;
      }
      r := bodies[0];
      bodies := bodies[1..];
    }
  }

  function ReplyOf(bodies: Option<seq<Option<Bytes>>>): Reply {
    match bodies
    case None => NoClient
    case Some(bs) => if bs == [] || bs[0].None? then PostFailed else PostBody(bs[0].value)
  }

  function Rest(bodies: Option<seq<Option<Bytes>>>): Option<seq<Option<Bytes>>> {
    match bodies
    case None => None
    case Some(bs) => Some(if bs == [] then [] else bs[1..])
  }

  /** The items a pipe relays in full, from what its peers will do. */
  function Items(arrivals: seq<Arrival>, accepts: nat, bodies: Option<seq<Option<Bytes>>>): seq<Item>
    decreases |arrivals|
  {
    if arrivals == [] || arrivals[0].Failed? || accepts == 0 then []
    else [Item(arrivals[0].bytes, ReplyOf(bodies))] + Items(arrivals[1..], accepts - 1, Rest(bodies))
  }

  /** The bytes of the write that fails, if one does. */
  function Torn(eval: Eval, side: Side, arrivals: seq<Arrival>, accepts: nat,
                bodies: Option<seq<Option<Bytes>>>): Bytes
    decreases |arrivals|
  {
    if arrivals == [] || arrivals[0].Failed? then []
    else if accepts == 0 then Transform(eval, side, Item(arrivals[0].bytes, ReplyOf(bodies)))
    else Torn(eval, side, arrivals[1..], accepts - 1, Rest(bodies))
  }

  /** What a failing write delivers of its bytes. */
  function Partial(b: Bytes, n: nat): Bytes {
    if n < |b| then b[..n] else b
  }

  /** The pipe is ended by a failing read, not by a failing write. */
  predicate ReadEnds(arrivals: seq<Arrival>, accepts: nat)
    decreases |arrivals|
  {
    arrivals == [] || arrivals[0].Failed? || (accepts > 0 && ReadEnds(arrivals[1..], accepts - 1))
  }

  /** One iteration ahead, in the three ways it can go. */
  lemma Unfold(eval: Eval, side: Side, arrivals: seq<Arrival>, accepts: nat, bodies: Option<seq<Option<Bytes>>>)
    ensures var out, torn := Relayed(eval, side, Items(arrivals, accepts, bodies)), Torn(eval, side, arrivals, accepts, bodies);
            if arrivals == [] || arrivals[0].Failed? then
              out == [] && torn == [] && ReadEnds(arrivals, accepts) && Items(arrivals, accepts, bodies) == []
            else
              var item := Item(arrivals[0].bytes, ReplyOf(bodies));
              var b := Transform(eval, side, item);
              if accepts == 0 then
                out == [] && torn == b && !ReadEnds(arrivals, accepts) && Items(arrivals, accepts, bodies) == []
              else
                && Items(arrivals, accepts, bodies) == [item] + Items(arrivals[1..], accepts - 1, Rest(bodies))
                && out == b + Relayed(eval, side, Items(arrivals[1..], accepts - 1, Rest(bodies)))
                && torn == Torn(eval, side, arrivals[1..], accepts - 1, Rest(bodies))
                && ReadEnds(arrivals, accepts) == ReadEnds(arrivals[1..], accepts - 1)
  {
  }

  class SocketConn {
    const eval: Eval
    const lconn: Endpoint
    const rconn: Endpoint
    const httpclient: Client?
    const request: Side   // RequestMatchReplaceDSL and OnRequest
    const response: Side  // ResponseMatchReplaceDSL and OnResponse
    var sentBytes: Word
    var receivedBytes: Word

    constructor (eval: Eval, lconn: Endpoint, rconn: Endpoint, client: Client?, request: Side, response: Side)
      ensures this.eval == eval && this.lconn == lconn && this.rconn == rconn && httpclient == client
      ensures this.request == request && this.response == response
      ensures sentBytes == 0 && receivedBytes == 0
    {
      this.eval, this.lconn, this.rconn, this.httpclient := eval, lconn, rconn, client;
      this.request, this.response := request, response;
      sentBytes, receivedBytes := 0, 0;
    }

    function Bodies(): Option<seq<Option<Bytes>>>
      reads httpclient
    {
      if httpclient == null then None else Some(httpclient.bodies)
    }

    /** One iteration of a pipe after a successful read: rewrite with the list
        and the callback of the direction, make the optional round trip, write,
        count. The answer of the round trip, if there is one, is what is
        written. */
    method Forward(chunk: Bytes, dst: Endpoint, islocal: bool) returns (ok: bool)
      modifies dst`accepts, dst`sent, httpclient, `sentBytes, `receivedBytes
      ensures var own := Rewritten(eval, if islocal then request else response, chunk);
              var answer := if httpclient == null || old(httpclient.bodies) == [] then None else old(httpclient.bodies)[0];
              var b := if answer.Some? then answer.value else own;
              && ok == (old(dst.accepts) > 0)
              && (ok ==> dst.sent == old(dst.sent) + b && dst.accepts == old(dst.accepts) - 1)
              && (!ok ==> dst.sent == old(dst.sent) + b[..if dst.partial < |b| then dst.partial else |b|])
              && sentBytes == (if ok && islocal then Wrap(old(sentBytes) + |b|) else old(sentBytes))
              && receivedBytes == (if ok && !islocal then Wrap(old(receivedBytes) + |b|) else old(receivedBytes))
      ensures httpclient != null ==>
                httpclient.bodies == if old(httpclient.bodies) == [] then [] else old(httpclient.bodies)[1..]
      ensures var b := Transform(eval, if islocal then request else response, Item(chunk, ReplyOf(old(Bodies()))));
              && dst.sent == old(dst.sent) + (if ok then b else Partial(b, dst.partial))
              && (ok && islocal ==> sentBytes == Wrap(old(sentBytes) + |b|))
              && (ok && !islocal ==> receivedBytes == Wrap(old(receivedBytes) + |b|))
      ensures Bodies() == Rest(old(Bodies()))
    {
      var b;
      if islocal {
        b := RewriteChunk(eval, request, chunk);
      } else {
        b := RewriteChunk(eval, response, chunk);
      }
      if httpclient != null {
        var resp := httpclient.Post(b);
        if resp.Some? {
          b := resp.value;
        }
      }
      var n;
      n, ok := dst.Write(b);
      if !ok {
        return;
      }
      if islocal {
        sentBytes := Wrap(sentBytes + n);
      } else {
        receivedBytes := Wrap(receivedBytes + n);
      }
    }

    /** The loop of a pipe. */
    method Copy(src: Endpoint, dst: Endpoint, islocal: bool) returns (fault: Fault)
      requires src != dst
      modifies src`arrivals, dst`accepts, dst`sent, httpclient, `sentBytes, `receivedBytes
      ensures var side := if islocal then request else response;
              var out := old(Relayed(eval, side, Items(src.arrivals, dst.accepts, Bodies())));
              var torn := old(Torn(eval, side, src.arrivals, dst.accepts, Bodies()));
              && dst.sent == old(dst.sent) + out + Partial(torn, dst.partial) && (fault == ReadFault ==> torn == [])
              && sentBytes == (if islocal then Wrap(old(sentBytes) + |out|) else old(sentBytes))
              && receivedBytes == (if islocal then old(receivedBytes) else Wrap(old(receivedBytes) + |out|))
      ensures fault == if old(ReadEnds(src.arrivals, dst.accepts)) then ReadFault else WriteFault
    {
      hide Transform, Rewritten, ReplyOf, Rest, Partial, Relayed, Items, Torn, ReadEnds, Wrap;
      Nothing(if islocal then sentBytes else receivedBytes, dst.partial);
      ghost var side, before := if islocal then request else response, dst.sent;
      ghost var start := if islocal then sentBytes else receivedBytes;
      ghost var total := Relayed(eval, side, Items(src.arrivals, dst.accepts, Bodies()));
      ghost var torn := Torn(eval, side, src.arrivals, dst.accepts, Bodies());
      ghost var out: Bytes := [];
      while true
        invariant out + Relayed(eval, side, Items(src.arrivals, dst.accepts, Bodies())) == total
        invariant Torn(eval, side, src.arrivals, dst.accepts, Bodies()) == torn
        invariant dst.sent == before + out
        invariant sentBytes == (if islocal then Wrap(start + |out|) else old(sentBytes))
        invariant receivedBytes == (if islocal then old(receivedBytes) else Wrap(start + |out|))
        invariant ReadEnds(src.arrivals, dst.accepts) == old(ReadEnds(src.arrivals, dst.accepts))
        decreases |src.arrivals|
      {
        ghost var ahead := Relayed(eval, side, Items(src.arrivals, dst.accepts, Bodies()));
        Unfold(eval, side, src.arrivals, dst.accepts, Bodies());
        var chunk, ok := src.Read();
        if !ok {
          assert ahead == [] && out == total;
          return ReadFault;
        }
        ghost var b := Transform(eval, side, Item(chunk, ReplyOf(Bodies())));
        ok := Forward(chunk, dst, islocal);
        if !ok {
          assert ahead == [] && out == total;
          return WriteFault;
        }
        Advance(before, out, b, Relayed(eval, side, Items(src.arrivals, dst.accepts, Bodies())), start);
        out := out + b;
      }
    }

    /** A pipe relays exactly the items its peers allow, in order, rewritten with
        the list and the callback of its direction, counts their bytes modulo
        2^64 in the counter of its direction only, and ends with the fault that
        stopped it; what a failing write delivers comes last and uncounted. */
    method Pipe(src: Endpoint, dst: Endpoint) returns (fault: Fault)
      requires lconn != rconn
      requires (src == lconn && dst == rconn) || (src == rconn && dst == lconn)
      modifies src`arrivals, dst`accepts, dst`sent, httpclient, `sentBytes, `receivedBytes
      ensures src == lconn ==>
                var out := old(Relayed(eval, request, Items(src.arrivals, dst.accepts, Bodies())));
                var torn := old(Torn(eval, request, src.arrivals, dst.accepts, Bodies()));
                && dst.sent == old(dst.sent) + out + Partial(torn, dst.partial) && (fault == ReadFault ==> torn == [])
                && sentBytes == Wrap(old(sentBytes) + |out|) && receivedBytes == old(receivedBytes)
      ensures src == rconn ==>
                var out := old(Relayed(eval, response, Items(src.arrivals, dst.accepts, Bodies())));
                var torn := old(Torn(eval, response, src.arrivals, dst.accepts, Bodies()));
                && dst.sent == old(dst.sent) + out + Partial(torn, dst.partial) && (fault == ReadFault ==> torn == [])
                && receivedBytes == Wrap(old(receivedBytes) + |out|) && sentBytes == old(sentBytes)
      ensures fault == if old(ReadEnds(src.arrivals, dst.accepts)) then ReadFault else WriteFault
    {
      hide Relayed, Items, Torn, ReadEnds, Partial, Wrap;
      var islocal := src == lconn;
      fault := Copy(src, dst, islocal);
    }
  }

  lemma Nothing(counter: Word, partial: nat)
    ensures Wrap(counter) == counter && Partial([], partial) == []
  {
  }

  lemma Advance(before: Bytes, out: Bytes, b: Bytes, rest: Bytes, start: Word)
    ensures before + out + b == before + (out + b)
    ensures out + (b + rest) == (out + b) + rest
    ensures Wrap(Wrap(start + |out|) + |b|) == Wrap(start + |out + b|)
  {
    WrapAdd(start + |out|, |b|);
  }
}
