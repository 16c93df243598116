/** The pure specification of the logger: what one transaction leaves in the
    structured output and in the files, and what a sequence of them does. */
module LogSpec {
  import opened Text
  import opened LogNames
  import opened Messages

  /** Match is the verdict of the filters; None when no filter is configured. */
  datatype UserData = UserData(id: string, matched: Option<bool>, hasResponse: bool, host: string)

  /** A request: its URL, its wire dump, and the structured data extracted from
      it (None when reading its body fails). */
  datatype Request = Request(url: string, dump: string, data: Option<MessageData>)

  /** A response whose chain could be read: its full text and structured data. */
  datatype Response = Response(full: string, data: MessageData)

  /** A logged transaction and the time stamp of its processing. */
  datatype Txn = Txn(userdata: UserData, request: Option<Request>, response: Option<Response>, stamp: string)

  /** A structured log entry before encoding. */
  datatype Record = Record(stamp: string, url: string, request: MessageData, response: MessageData)

  /** The logger's configuration; encode is the JSON encoder, None on error. */
  datatype Setup = Setup(options: Options, encode: Record -> Option<string>, structured: bool)

  /** Capacity of the queue between the modifiers and the consumer. */
  const CAPACITY: nat := 1000

  /** A write to one file of the store. */
  datatype Save = Save(file: string, payload: string)

  // ----- the structured output ------------------------------------------

  /** The line a transaction gives: none if its verdict is false, if it has no
      response, or if its data cannot be extracted or encoded. */
  function LineOf(cfg: Setup, t: Txn): Option<string> {
    if !cfg.structured || t.userdata.matched == Some(false) then None
    else if t.request.None? || t.request.value.data.None? || t.response.None? then None
    else match cfg.encode(Record(t.stamp, t.request.value.url, t.request.value.data.value, t.response.value.data))
      case None => None
      case Some(text) => Some(EscapeNewlines(text))
  }

  function LinesOf(cfg: Setup, ts: seq<Txn>): seq<string> {
    if ts == [] then []
    else (match LineOf(cfg, ts[0]) case None => [] case Some(line) => [line]) + LinesOf(cfg, ts[1..])
  }

  /** The content of a file of lines. */
  function Framed(lines: seq<string>): string {
    if lines == [] then "" else lines[0] + "\n" + Framed(lines[1..])
  }

  // ----- the file store -------------------------------------------------

  /** The longest prefix within a positive limit; all of it without one. */
  function Truncate(s: string, maxSize: int): (r: string)
    ensures r <= s
    ensures maxSize > 0 ==> |r| <= maxSize
    ensures r == s || |r| == maxSize
  {
    if 0 < maxSize < |s| then s[..maxSize] else s
  }

  /** The stored form of a part: a newline after it, one before a response. */
  function Payload(o: Options, hasResponse: bool, raw: string): string {
    Truncate((if hasResponse then "\n" else "") + raw + "\n", o.maxSize)
  }

  function SaveOf(o: Options, u: UserData, raw: string): seq<Save> {
    if PartSuffix(o, u.hasResponse).None? then []
    else [Save(Name(o, u.host, u.id, u.hasResponse, u.matched) + ".txt", Payload(o, u.hasResponse, raw))]
  }

  /** The request part, then the response part if there is one. */
  function RequestSave(o: Options, t: Txn): seq<Save>
    requires t.request.Some?
  {
    SaveOf(o, t.userdata.(hasResponse := false), t.request.value.dump)
  }

  function ResponseSave(o: Options, t: Txn): seq<Save> {
    if t.response.None? then [] else SaveOf(o, t.userdata.(hasResponse := true), t.response.value.full)
  }

  function SavesOf(o: Options, t: Txn): seq<Save> {
    if t.request.None? then [] else RequestSave(o, t) + ResponseSave(o, t)
  }

  function AllSaves(o: Options, ts: seq<Txn>): seq<Save> {
    if ts == [] then [] else SavesOf(o, ts[0]) + AllSaves(o, ts[1..])
  }

  type Files = map<string, string>

  /** Opening for append, creating if absent, and writing. */
  function Append(files: Files, save: Save): Files {
    files[save.file := (if save.file in files then files[save.file] else "") + save.payload]
  }

  function Apply(files: Files, saves: seq<Save>): Files
    decreases |saves|
  {
    if saves == [] then files else Apply(Append(files, saves[0]), saves[1..])
  }

  /** The contents a list of saves gives to one file. */
  function ContentOf(saves: seq<Save>, file: string): string {
    if saves == [] then ""
    else (if saves[0].file == file then saves[0].payload else "") + ContentOf(saves[1..], file)
  }

  /** Some save goes to the file. */
  ghost predicate SavedTo(saves: seq<Save>, file: string) {
    exists i | 0 <= i < |saves| :: saves[i].file == file
  }

  /** The saves of a transaction, spelled out: the request's before the
      response's, each if it is there and stored, with a newline after it and one
      before a response, cut to the limit if there is one. */
  lemma SavesSpelled(o: Options, t: Txn)
    ensures t.request.None? ==> SavesOf(o, t) == []
    ensures t.request.Some? ==>
              var u, r := t.userdata, if t.response.Some? then t.response.value.full else "";
              var withRequest := PartSuffix(o, false).Some?;
              var withResponse := t.response.Some? && PartSuffix(o, true).Some?;
              SavesOf(o, t) ==
              (if withRequest then
                 [Save(Name(o, u.host, u.id, false, u.matched) + ".txt", Truncate(t.request.value.dump + "\n", o.maxSize))]
               else []) +
              (if withResponse then
                 [Save(Name(o, u.host, u.id, true, u.matched) + ".txt", Truncate("\n" + r + "\n", o.maxSize))]
               else [])
  {
    if t.request.Some? {
      assert "" + t.request.value.dump + "\n" == t.request.value.dump + "\n";
    }
  }

  /** The line of a transaction, spelled out. */
  lemma LineSpelled(cfg: Setup, t: Txn)
    ensures cfg.structured && t.userdata.matched != Some(false) && t.request.Some? && t.request.value.data.Some? && t.response.Some? ==>
              var record := Record(t.stamp, t.request.value.url, t.request.value.data.value, t.response.value.data);
              && (cfg.encode(record).None? ==> LineOf(cfg, t) == None)
              && (cfg.encode(record).Some? ==> LineOf(cfg, t) == Some(EscapeNewlines(cfg.encode(record).value)))
    ensures !cfg.structured || t.userdata.matched == Some(false) || t.request.None? || t.response.None? ==> LineOf(cfg, t) == None
    ensures t.request.Some? && t.request.value.data.None? ==> LineOf(cfg, t) == None
  {
  }

  // ----- laws -----------------------------------------------------------

  lemma {:induction false} LinesOfAppend(cfg: Setup, a: seq<Txn>, b: seq<Txn>)
    ensures LinesOf(cfg, a + b) == LinesOf(cfg, a) + LinesOf(cfg, b)
  {
    if a == [] {
      assert a + b == b;
    } else {
      assert (a + b)[1..] == a[1..] + b;
      LinesOfAppend(cfg, a[1..], b);
    }
  }

  lemma {:induction false} FramedAppend(a: seq<string>, b: seq<string>)
    ensures Framed(a + b) == Framed(a) + Framed(b)
  {
    if a == [] {
      assert a + b == b;
    } else {
      assert (a + b)[1..] == a[1..] + b;
      FramedAppend(a[1..], b);
    }
  }

  lemma {:induction false} AllSavesAppend(o: Options, a: seq<Txn>, b: seq<Txn>)
    ensures AllSaves(o, a + b) == AllSaves(o, a) + AllSaves(o, b)
  {
    if a == [] {
      assert a + b == b;
    } else {
      assert (a + b)[1..] == a[1..] + b;
      AllSavesAppend(o, a[1..], b);
    }
  }

  lemma {:induction false} ApplyAppend(files: Files, a: seq<Save>, b: seq<Save>)
    ensures Apply(files, a + b) == Apply(Apply(files, a), b)
    decreases |a|
  {
    if a == [] {
      assert a + b == b;
    } else {
      assert (a + b)[1..] == a[1..] + b;
      ApplyAppend(Append(files, a[0]), a[1..], b);
    }
  }

  lemma {:induction false} ContentOfAppend(a: seq<Save>, b: seq<Save>, file: string)
    ensures ContentOf(a + b, file) == ContentOf(a, file) + ContentOf(b, file)
  {
    if a == [] {
      assert a + b == b;
    } else {
      assert (a + b)[1..] == a[1..] + b;
      ContentOfAppend(a[1..], b, file);
    }
  }

  /** The content of a file; that of an absent one is empty. */
  function Held(files: Files, file: string): string {
    if file in files then files[file] else ""
  }

  lemma HeldAfter(files: Files, save: Save, file: string)
    ensures Held(Append(files, save), file) == Held(files, file) + if save.file == file then save.payload else ""
    ensures file in Append(files, save) <==> file in files || save.file == file
  {
    assert Held(files, file) + "" == Held(files, file);
  }

  lemma {:induction false} ContentsHeld(files: Files, saves: seq<Save>, file: string)
    ensures Held(Apply(files, saves), file) == Held(files, file) + ContentOf(saves, file)
    decreases |saves|
  {
    if saves == [] {
      assert Held(files, file) + "" == Held(files, file);
    } else {
      hide Held, Append;
      HeldAfter(files, saves[0], file);
      ContentsHeld(Append(files, saves[0]), saves[1..], file);
      var first := if saves[0].file == file then saves[0].payload else "";
      assert Held(files, file) + first + ContentOf(saves[1..], file) == Held(files, file) + (first + ContentOf(saves[1..], file));
    }
  }

  lemma SavedToFirst(saves: seq<Save>, file: string)
    requires saves != []
    ensures SavedTo(saves, file) <==> saves[0].file == file || SavedTo(saves[1..], file)
  {
    if SavedTo(saves[1..], file) {
      var i :| 0 <= i < |saves[1..]| && saves[1..][i].file == file;
      assert saves[i + 1].file == file;
    }
    if SavedTo(saves, file) {
      var i :| 0 <= i < |saves| && saves[i].file == file;
      assert i > 0 ==> saves[1..][i - 1].file == file;
    }
  }

  /** Every file holds, in order, exactly the payloads saved under its name;
      the files are those saved to. */
  lemma {:induction false} FilesAreContents(files: Files, saves: seq<Save>, file: string)
    ensures file in Apply(files, saves) <==> file in files || SavedTo(saves, file)
    ensures file in Apply(files, saves) ==> Apply(files, saves)[file] == Held(files, file) + ContentOf(saves, file)
    decreases |saves|
  {
    ContentsHeld(files, saves, file);
    if saves != [] {
      hide SavedTo, Append;
      HeldAfter(files, saves[0], file);
      SavedToFirst(saves, file);
      FilesAreContents(Append(files, saves[0]), saves[1..], file);
    }
  }

  /** A consumer that takes the first transaction off its queue. */
  lemma Consume(o: Options, files: Files, queue: seq<Txn>)
    requires queue != []
    ensures Apply(files, AllSaves(o, queue)) == Apply(Apply(files, SavesOf(o, queue[0])), AllSaves(o, queue[1..]))
  {
    ApplyAppend(files, SavesOf(o, queue[0]), AllSaves(o, queue[1..]));
  }

  lemma ConsumeLines(cfg: Setup, queue: seq<Txn>)
    requires queue != []
    ensures Framed(LinesOf(cfg, queue)) == Framed(LinesOf(cfg, [queue[0]])) + Framed(LinesOf(cfg, queue[1..]))
  {
    assert queue == [queue[0]] + queue[1..];
    LinesOfAppend(cfg, [queue[0]], queue[1..]);
    FramedAppend(LinesOf(cfg, [queue[0]]), LinesOf(cfg, queue[1..]));
  }

  // ----- line framing ---------------------------------------------------

  /** Splitting the structured output at newlines gives back the lines, and an
      empty tail: no record is split or merged. */
  lemma {:induction false} FramedSplits(lines: seq<string>)
    requires forall i | 0 <= i < |lines| :: '\n' !in lines[i]
    ensures Split(Framed(lines), '\n') == lines + [""]
  {
    if lines != [] {
      FramedSplits(lines[1..]);
      SplitAt(lines[0], Framed(lines[1..]), '\n');
      SplitFree(lines[0], '\n');
      assert Framed(lines) == lines[0] + ['\n'] + Framed(lines[1..]);
    }
  }

  /** The encoder's text survives unchanged when it has no raw newline. */
  lemma LineUnescaped(cfg: Setup, t: Txn, text: string)
    requires LineOf(cfg, t).Some?
    requires cfg.encode(Record(t.stamp, t.request.value.url, t.request.value.data.value, t.response.value.data)) == Some(text)
    requires '\n' !in text
    ensures LineOf(cfg, t) == Some(text)
  {
    EscapeFree(text);
  }

  lemma {:induction false} LinesHaveNoNewline(cfg: Setup, ts: seq<Txn>)
    ensures forall i | 0 <= i < |LinesOf(cfg, ts)| :: '\n' !in LinesOf(cfg, ts)[i]
  {
    if ts != [] {
      LinesHaveNoNewline(cfg, ts[1..]);
    }
  }

  /** The structured output of any transactions splits into their lines. */
  lemma OutputSplits(cfg: Setup, ts: seq<Txn>)
    ensures Split(Framed(LinesOf(cfg, ts)), '\n') == LinesOf(cfg, ts) + [""]
  {
    LinesHaveNoNewline(cfg, ts);
    FramedSplits(LinesOf(cfg, ts));
  }
}
