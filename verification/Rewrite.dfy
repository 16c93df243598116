/** Match-replace of whole messages, and the Accept-Encoding normaliser. */
module Rewrite {
  import opened Text
  import opened Http

  /** The left fold of the expressions over the dump; an error ends it. */
  function Fold(lib: Library, exprs: seq<string>, text: string): Option<string> {
    if exprs == [] then Some(text)
    else match lib.rewrite(exprs[0], text)
      case None => None
      case Some(next) => Fold(lib, exprs[1..], next)
  }

  /** The request a rewrite produces, None if any of its stages fails. */
  function RewrittenRequest(lib: Library, exprs: seq<string>, view: RequestView): Option<Parsed<RequestView>> {
    match lib.dumpRequest(view)
    case None => None
    case Some(dump) =>
      match Fold(lib, exprs, dump)
      case None => None
      case Some(text) => lib.readRequest(text)
  }

  function RewrittenResponse(lib: Library, exprs: seq<string>, view: ResponseView): Option<Parsed<ResponseView>> {
    match lib.dumpResponse(view)
    case None => None
    case Some(dump) =>
      match Fold(lib, exprs, dump)
      case None => None
      case Some(text) => lib.readResponse(text)
  }

  /** The texts between the expressions: each the result of the one before. */
  ghost predicate Trace(lib: Library, exprs: seq<string>, texts: seq<string>) {
    |texts| == |exprs| + 1 && forall i | 0 <= i < |exprs| :: lib.rewrite(exprs[i], texts[i]) == Some(texts[i + 1])
  }

  lemma {:induction false} FoldOfTrace(lib: Library, exprs: seq<string>, texts: seq<string>)
    requires Trace(lib, exprs, texts)
    ensures Fold(lib, exprs, texts[0]) == Some(texts[|exprs|])
  {
    if exprs != [] {
      assert Trace(lib, exprs[1..], texts[1..]) by {
        assert forall i | 0 <= i < |exprs[1..]| :: exprs[1..][i] == exprs[i + 1];
        assert forall i | 0 <= i < |texts[1..]| :: texts[1..][i] == texts[i + 1];
      }
      FoldOfTrace(lib, exprs[1..], texts[1..]);
    }
  }

  /** The expressions succeed on a text with a result exactly when there is a
      trace from the one to the other. */
  lemma {:induction false} FoldIffTrace(lib: Library, exprs: seq<string>, text: string, result: string)
    ensures Fold(lib, exprs, text) == Some(result) <==>
            exists texts | Trace(lib, exprs, texts) :: texts[0] == text && texts[|exprs|] == result
  {
    if exists texts | Trace(lib, exprs, texts) :: texts[0] == text && texts[|exprs|] == result {
      var texts :| Trace(lib, exprs, texts) && texts[0] == text && texts[|exprs|] == result;
      FoldOfTrace(lib, exprs, texts);
    }
    if Fold(lib, exprs, text) == Some(result) {
      var texts := TraceOf(lib, exprs, text);
      FoldOfTrace(lib, exprs, texts);
    }
  }

  lemma {:induction false} TraceOf(lib: Library, exprs: seq<string>, text: string) returns (texts: seq<string>)
    requires Fold(lib, exprs, text).Some?
    ensures Trace(lib, exprs, texts) && texts[0] == text
  {
    texts := [text];
    if exprs != [] {
      var rest := TraceOf(lib, exprs[1..], lib.rewrite(exprs[0], text).value);
      texts := [text] + rest;
      assert forall i | 0 <= i < |exprs[1..]| :: exprs[1..][i] == exprs[i + 1];
    }
  }

  /** A message is parsed from the last text of its trace. */
  lemma ParsedFromTrace(lib: Library, exprs: seq<string>, texts: seq<string>)
    requires Trace(lib, exprs, texts)
    ensures forall v | lib.dumpRequest(v) == Some(texts[0]) ::
              RewrittenRequest(lib, exprs, v) == lib.readRequest(texts[|exprs|])
    ensures forall v | lib.dumpResponse(v) == Some(texts[0]) ::
              RewrittenResponse(lib, exprs, v) == lib.readResponse(texts[|exprs|])
  {
    FoldOfTrace(lib, exprs, texts);
  }

  /** When there is a rewritten request: the dump, every expression and the
      parse have succeeded. */
  lemma RewrittenIff(lib: Library, exprs: seq<string>, view: RequestView)
    ensures RewrittenRequest(lib, exprs, view).Some? <==>
            exists texts | Trace(lib, exprs, texts) ::
              lib.dumpRequest(view) == Some(texts[0]) && lib.readRequest(texts[|exprs|]).Some?
  {
    if RewrittenRequest(lib, exprs, view).Some? {
      var texts := TraceOf(lib, exprs, lib.dumpRequest(view).value);
      ParsedFromTrace(lib, exprs, texts);
    }
    forall texts | Trace(lib, exprs, texts) {
      ParsedFromTrace(lib, exprs, texts);
    }
  }

  lemma RewrittenResponseIff(lib: Library, exprs: seq<string>, view: ResponseView)
    ensures RewrittenResponse(lib, exprs, view).Some? <==>
            exists texts | Trace(lib, exprs, texts) ::
              lib.dumpResponse(view) == Some(texts[0]) && lib.readResponse(texts[|exprs|]).Some?
  {
    if RewrittenResponse(lib, exprs, view).Some? {
      var texts := TraceOf(lib, exprs, lib.dumpResponse(view).value);
      ParsedFromTrace(lib, exprs, texts);
    }
    forall texts | Trace(lib, exprs, texts) {
      ParsedFromTrace(lib, exprs, texts);
    }
  }

  /** The loop over the expressions: m["request"] or m["response"]. */
  method Evaluate(lib: Library, exprs: seq<string>, dump: string) returns (r: Option<string>)
    ensures r == Fold(lib, exprs, dump)
  {
    var text := dump;
    var i := 0;
    while i < |exprs|
      invariant 0 <= i <= |exprs|
      invariant Fold(lib, exprs[i..], text) == Fold(lib, exprs, dump)
    {
      var v := lib.rewrite(exprs[i], text);
      if v.None? {
        return None;
      }
      text := v.value;
      i := i + 1;
    }
    r := Some(text);
  }

  /** Request match-replace is all or nothing: either all four parts come from
      the parse of the rewritten dump, or all four read as before. Only when
      the body itself cannot be read is the body lost. */
  method MatchReplaceRequest(lib: Library, exprs: seq<string>, req: Request) returns (ok: bool)
    modifies req`verb, req`header, req`url, req`body, req.body
    ensures old(req.body.broken) ==>
              !ok && req.verb == old(req.verb) && req.header == old(req.header) && req.url == old(req.url)
    ensures !old(req.body.broken) ==>
              var r := RewrittenRequest(lib, exprs, old(req.View()));
              && ok == r.Some?
              && req.View() == (if r.Some? then r.value.view else old(req.View()))
              && req.body.broken == (r.Some? && !r.value.complete)
    ensures !old(req.body.broken) ==>
              forall texts | Trace(lib, exprs, texts) && lib.dumpRequest(old(req.View())) == Some(texts[0]) ::
                var parsed := lib.readRequest(texts[|exprs|]);
                ok == parsed.Some? && req.View() == if ok then parsed.value.view else old(req.View())
    ensures req.body == old(req.body) || fresh(req.body)
  {
    forall texts | Trace(lib, exprs, texts) {
      ParsedFromTrace(lib, exprs, texts);
    }
    var dump := DumpRequest(lib, req);
    if dump.None? {
      return false;
    }
    var text := Evaluate(lib, exprs, dump.value);
    if text.None? {
      return false;
    }
    var requestNew := lib.readRequest(text.value);
    if requestNew.None? {
      return false;
    }
    var parsed := requestNew.value;
    req.verb := parsed.view.verb;
    req.header := parsed.view.header;
    req.body := new Body(parsed.view.body, !parsed.complete);
    req.url := parsed.view.url;
    ok := true;
  }

  /** The header and the body that response match-replace leaves; the body is
      None when it is gone. */
  function Replaced(lib: Library, exprs: seq<string>, view: ResponseView): (Header, Option<string>) {
    match RewrittenResponse(lib, exprs, view)
    case None => (view.header, Some(view.body))
    case Some(r) => (r.view.header, if r.complete then Some(r.view.body) else None)
  }

  function Rest(body: Body?): Option<string>
    reads body
  {
    if body == null then None else Some(body.rest)
  }

  /** Response match-replace: the header is replaced before the new body is
      read, so an incomplete new body leaves the new header without a body. */
  method MatchReplaceResponse(lib: Library, exprs: seq<string>, resp: Response) returns (ok: bool)
    requires resp.body != null
    modifies resp`header, resp`body, resp`contentLength, resp.body
    ensures resp.contentLength == -1
    ensures old(resp.body.broken) ==> !ok && resp.header == old(resp.header)
    ensures !old(resp.body.broken) ==>
              var r := RewrittenResponse(lib, exprs, old(resp.View()));
              && ok == (r.Some? && r.value.complete)
              && (resp.header, Rest(resp.body)) == Replaced(lib, exprs, old(resp.View()))
              && (resp.body != null ==> !resp.body.broken)
    ensures !old(resp.body.broken) ==>
              forall texts | Trace(lib, exprs, texts) && lib.dumpResponse(old(resp.View())) == Some(texts[0]) ::
                match lib.readResponse(texts[|exprs|])
                case None => !ok && resp.body != null && resp.View() == old(resp.View())
                case Some(p) =>
                  && ok == p.complete && resp.header == p.view.header
                  && if ok then resp.body != null && resp.body.rest == p.view.body else resp.body == null
    ensures resp.body == old(resp.body) || resp.body == null || fresh(resp.body)
  {
    forall texts | Trace(lib, exprs, texts) {
      ParsedFromTrace(lib, exprs, texts);
    }
    resp.contentLength := -1;
    var dump := DumpResponse(lib, resp);
    if dump.None? {
      return false;
    }
    var text := Evaluate(lib, exprs, dump.value);
    if text.None? {
      return false;
    }
    var responseNew := lib.readResponse(text.value);
    if responseNew.None? {
      return false;
    }
    resp.header := responseNew.value.view.header;
    if !responseNew.value.complete {
      resp.body := null;
      return false;
    }
    resp.body := new Body(responseNew.value.view.body, false);
    // the zero-length test of the source follows here; it cannot succeed
    assert resp.contentLength != 0;
    ok := true;
  }

  /** Header and body both stay, or both come from the rewritten response. */
  predicate AllOrNothing(lib: Library, exprs: seq<string>, view: ResponseView) {
    var r := RewrittenResponse(lib, exprs, view);
    Replaced(lib, exprs, view) == (view.header, Some(view.body)) ||
    (r.Some? && Replaced(lib, exprs, view) == (r.value.view.header, Some(r.value.view.body)))
  }

  /** Response match-replace is all or nothing exactly when it fails before or
      in the parse, or the parsed body is complete. */
  lemma AllOrNothingIff(lib: Library, exprs: seq<string>, view: ResponseView)
    ensures AllOrNothing(lib, exprs, view) <==>
            var r := RewrittenResponse(lib, exprs, view);
            r.None? || r.value.complete
  {
  }

  /** A library whose parse of any response finds its body cut short. */
  function CutShort(header: Header, part: string): Library {
    Library(v => Some(""), t => None, (v: ResponseView) => Some(v.body), t => Some(Parsed(ResponseView(200, header, part), false)),
            (h, u) => None, (e, t) => Some(t), (e, m) => Some(true))
  }

  /** A failing input: the old header is lost, and so is the body. */
  lemma HalfReplaced(old': Header, new': Header)
    requires old' != new'
    ensures var lib, view := CutShort(new', "part"), ResponseView(200, old', "whole");
            Replaced(lib, ["expr"], view) == (new', None) && !AllOrNothing(lib, ["expr"], view)
  {
    var lib := CutShort(new', "part");
    assert Fold(lib, [], "whole") == Some("whole");
    assert ["expr"][1..] == [];
  }

  /** Rewriting with es1 + es2 is rewriting with es1, then es2 on its result. */
  lemma {:induction false} FoldAppend(lib: Library, es1: seq<string>, es2: seq<string>, text: string)
    ensures Fold(lib, es1 + es2, text) ==
            match Fold(lib, es1, text) case None => None case Some(t) => Fold(lib, es2, t)
  {
    if es1 == [] {
      assert es1 + es2 == es2;
    } else {
      assert (es1 + es2)[1..] == es1[1..] + es2;
      var v := lib.rewrite(es1[0], text);
      if v.Some? {
        FoldAppend(lib, es1[1..], es2, v.value);
      }
    }
  }

  /** One failing expression, wherever it stands, undoes the whole rewrite. */
  lemma AnyFailureUndoesAll(lib: Library, es1: seq<string>, e: string, es2: seq<string>, view: RequestView)
    requires lib.dumpRequest(view).Some?
    requires Fold(lib, es1, lib.dumpRequest(view).value).Some?
    requires lib.rewrite(e, Fold(lib, es1, lib.dumpRequest(view).value).value).None?
    ensures RewrittenRequest(lib, es1 + [e] + es2, view) == None
  {
    var dump := lib.dumpRequest(view).value;
    FoldAppend(lib, es1 + [e], es2, dump);
    FoldAppend(lib, es1, [e], dump);
  }

  // ----- Accept-Encoding ------------------------------------------------

  /** The content codings a header value lists, without their spaces. */
  function Codings(value: string): seq<string> {
    Split(RemoveChar(value, ' '), ',')
  }

  /** sliceutil.PruneEqual. */
  function Without(tokens: seq<string>, token: string): seq<string> {
    if tokens == [] then []
    else (if tokens[0] == token then [] else [tokens[0]]) + Without(tokens[1..], token)
  }

  /** The value removeBrEncoding sets. */
  function Debrotlied(value: string): string {
    Join(Without(Codings(value), "br"), ", ")
  }

  lemma {:induction false} WithoutKeeps(tokens: seq<string>, token: string)
    ensures token !in Without(tokens, token)
    ensures forall x: string :: x != token ==> multiset(Without(tokens, token))[x] == multiset(tokens)[x]
    ensures forall x: string :: x in Without(tokens, token) ==> x in tokens
  {
    if tokens != [] {
      WithoutKeeps(tokens[1..], token);
      assert tokens == [tokens[0]] + tokens[1..];
    }
  }

  /** Pruning works token by token, so it keeps their order. */
  lemma {:induction false} WithoutAppend(a: seq<string>, b: seq<string>, token: string)
    ensures Without(a + b, token) == Without(a, token) + Without(b, token)
  {
    if a == [] {
      assert a + b == b;
    } else {
      assert (a + b)[1..] == a[1..] + b;
      WithoutAppend(a[1..], b, token);
    }
  }

  lemma {:induction false} WithoutNothing(tokens: seq<string>, token: string)
    requires token !in tokens
    ensures Without(tokens, token) == tokens
  {
    if tokens != [] {
      WithoutNothing(tokens[1..], token);
    }
  }

  /** Removing the spaces of a join with ", " gives a join with ",". */
  lemma {:induction false} JoinSpaces(tokens: seq<string>)
    requires forall i | 0 <= i < |tokens| :: ' ' !in tokens[i]
    ensures RemoveChar(Join(tokens, ", "), ' ') == Join(tokens, ",")
  {
    if |tokens| == 1 {
      RemoveCharFree(tokens[0], ' ');
    } else if |tokens| > 1 {
      JoinSpaces(tokens[1..]);
      RemoveCharAppend(tokens[0] + ", ", Join(tokens[1..], ", "), ' ');
      RemoveCharAppend(tokens[0], ", ", ' ');
      RemoveCharFree(tokens[0], ' ');
      assert RemoveChar(", ", ' ') == "," by {
        assert ", "[1..] == " " && " "[1..] == "";
      }
    }
  }

  lemma CodingsPlain(value: string)
    ensures forall i | 0 <= i < |Codings(value)| :: ',' !in Codings(value)[i] && ' ' !in Codings(value)[i]
  {
    SplitTokensFree(RemoveChar(value, ' '), ',');
    SplitTokensFrom(RemoveChar(value, ' '), ',');
  }

  /** A list of codings without commas and spaces. */
  predicate PlainTokens(xs: seq<string>) {
    xs != [] && forall i | 0 <= i < |xs| :: ',' !in xs[i] && ' ' !in xs[i]
  }

  lemma {:induction false} JoinPlain(xs: seq<string>)
    requires forall i | 0 <= i < |xs| :: ' ' !in xs[i]
    ensures ' ' !in Join(xs, ",")
  {
    if |xs| > 1 {
      JoinPlain(xs[1..]);
    }
  }

  /** The codings of a header value are those that were listed, with or without
      a space after each comma; and of any value they are all there is. */
  lemma CodingsOfList(xs: seq<string>)
    requires PlainTokens(xs)
    ensures Codings(Join(xs, ", ")) == xs && Codings(Join(xs, ",")) == xs
  {
    JoinSpaces(xs);
    SplitJoin(xs, ',');
    JoinPlain(xs);
    RemoveCharFree(Join(xs, ","), ' ');
  }

  lemma CodingsAreAll(value: string)
    ensures Join(Codings(value), ",") == RemoveChar(value, ' ')
  {
    JoinSplit(RemoveChar(value, ' '), ',');
  }

  /** Only the Accept-Encoding header changes: to the list of the codings of its
      first value other than "br", or to an empty value when there was none. */
  method RemoveBrEncoding(req: Request)
    modifies req`header
    ensures req.header == old(req.header)["Accept-Encoding" := [Debrotlied(Get(old(req.header), "Accept-Encoding"))]]
    ensures forall xs | PlainTokens(xs) && "Accept-Encoding" in old(req.header) && old(req.header)["Accept-Encoding"] != [] &&
                        old(req.header)["Accept-Encoding"][0] in [Join(xs, ", "), Join(xs, ",")] ::
              req.header["Accept-Encoding"] == [Join(Without(xs, "br"), ", ")]
    ensures "Accept-Encoding" !in old(req.header) ==> req.header["Accept-Encoding"] == [""]
  {
    forall xs | PlainTokens(xs) {
      CodingsOfList(xs);
    }
    assert Codings("") == [""] && Without([""], "br") == [""];
    var encodings := Split(RemoveChar(Get(req.header, "Accept-Encoding"), ' '), ',');
    encodings := Without(encodings, "br");
    req.header := req.header["Accept-Encoding" := [Join(encodings, ", ")]];
  }

  /** The new value lists exactly the codings other than "br", in order and
      with multiplicity; when "br" was all there was, it is empty. */
  lemma RemovesExactlyBr(value: string)
    ensures var kept := Without(Codings(value), "br");
            if kept == [] then Debrotlied(value) == "" else Codings(Debrotlied(value)) == kept
    ensures "br" !in Codings(Debrotlied(value))
  {
    var kept := Without(Codings(value), "br");
    CodingsPlain(value);
    WithoutKeeps(Codings(value), "br");
    if kept != [] {
      forall i | 0 <= i < |kept|
        ensures ',' !in kept[i] && ' ' !in kept[i]
      {
        assert kept[i] in Codings(value);
      }
      JoinSpaces(kept);
      SplitJoin(kept, ',');
    }
  }

  /** Removing "br" twice is removing it once, on the header string. */
  lemma RemoveBrIdempotent(value: string)
    ensures Debrotlied(Debrotlied(value)) == Debrotlied(value)
  {
    RemovesExactlyBr(value);
    WithoutNothing(Codings(Debrotlied(value)), "br");
    var kept := Without(Codings(value), "br");
    if kept == [] {
      assert Codings("") == [""];
    }
  }

  /** A weighted coding is a different token: "br;q=1" is kept. */
  lemma WeightedBrKept(value: string)
    requires "br;q=1" in Codings(value)
    ensures "br;q=1" in Codings(Debrotlied(value))
  {
    RemovesExactlyBr(value);
    WithoutKeeps(Codings(value), "br");
    var x := "br;q=1";
    assert |x| != |"br"|;
    assert multiset(Without(Codings(value), "br"))[x] == multiset(Codings(value))[x] > 0;
    assert x in multiset(Without(Codings(value), "br"));
  }
}
