/** The logger's code: queue, consumer, structured writer and file store. */
module Logger {
  import opened Text
  import opened LogNames
  import opened LogSpec

  /** fmt.Sprintf for a format with one "%s" verb. */
  function Sprintf(format: string, arg: string): string {
    if |format| < 2 then format
    else if format[..2] == "%s" then arg + format[2..]
    else [format[0]] + Sprintf(format[1..], arg)
  }

  /** The working copy of a transaction that storeWriter fills in. */
  datatype HTTPTransaction = HTTPTransaction(userdata: UserData, rawData: string, data: string,
                                             name: string, partSuffix: string, format: string)

  /** The file store of one output folder, by file name. */
  class FileStore {
    const outputFolder: string
    var files: Files

    constructor (outputFolder: string)
      ensures this.outputFolder == outputFolder && files == map[]
    {
      this.outputFolder, files := outputFolder, map[];
    }

    method Save(tx: HTTPTransaction)
      modifies this
      ensures files == if outputFolder == "" then old(files)
                       else Append(old(files), LogSpec.Save.Save(tx.name + ".txt", tx.rawData))
    {
      var logFile := tx.name + ".txt";
      if outputFolder != "" {
        var before := if logFile in files then files[logFile] else "";
        files := files[logFile := before + tx.rawData];
      }
    }
  }

  /** The JSON lines file; writes to a closed file have no effect. */
  class JsonLinesWriter {
    const encode: Record -> Option<string>
    var content: string
    var open: bool

    constructor (encode: Record -> Option<string>)
      ensures this.encode == encode && content == "" && open
    {
      this.encode, content, open := encode, "", true;
    }

    method WriteString(s: string)
      modifies `content
      ensures content == if open then old(content) + s else old(content)
    {
      if open {
        content := content + s;
      }
    }

    /** One escaped record and one newline, or nothing on an encoding error. */
    method Write(data: Record)
      modifies `content
      ensures content == match encode(data)
                         case None => old(content)
                         case Some(text) => if open then old(content) + Framed([EscapeNewlines(text)]) else old(content)
    {
      var binx := encode(data);
      if binx.None? {
        return;
      }
      WriteString(EscapeNewlines(binx.value));
      WriteString("\n");
      assert Framed([EscapeNewlines(binx.value)]) == EscapeNewlines(binx.value) + "\n";
    }

    method Close()
      modifies `open
      ensures !open
    {
      open := false;
    }
  }

  /** What becomes of a logging call: nothing to log, queued, waiting for room,
      or a panic. */
  datatype Sending = Skipped | Sent | Blocked | Panicked

  class Logger {
    const options: Options
    const stores: seq<FileStore>
    const sWriter: JsonLinesWriter?
    var asyncqueue: seq<Txn>
    var closed: bool

    constructor (options: Options, stores: seq<FileStore>, sWriter: JsonLinesWriter?)
      requires forall i, j | 0 <= i < j < |stores| :: stores[i] != stores[j]
      ensures this.options == options && this.stores == stores && this.sWriter == sWriter
      ensures Valid() && asyncqueue == [] && !closed
    {
      this.options, this.stores, this.sWriter := options, stores, sWriter;
      asyncqueue, closed := [], false;
    }

    /** The queue respects the channel's capacity; the stores are distinct. */
    ghost predicate Valid()
      reads this
    {
      && |asyncqueue| <= CAPACITY
      && forall i, j | 0 <= i < j < |stores| :: stores[i] != stores[j]
    }

    /** A send: it blocks on a full queue and panics on a closed one. */
    method Send(t: Txn) returns (r: Sending)
      requires Valid()
      modifies `asyncqueue
      ensures Valid()
      ensures r == if closed then Panicked else if |old(asyncqueue)| == 1000 then Blocked else Sent
      ensures asyncqueue == if r == Sent then old(asyncqueue) + [t] else old(asyncqueue)
    {
      if closed {
        return Panicked;
      }
      if |asyncqueue| == CAPACITY {
        return Blocked;
      }
      asyncqueue := asyncqueue + [t];
      r := Sent;
    }

    /** A nil request is not logged. */
    method LogRequest(req: Option<Request>, userdata: UserData, stamp: string) returns (r: Sending)
      requires Valid()
      modifies `asyncqueue
      ensures Valid()
      ensures r == if req.None? then Skipped else if closed then Panicked
                   else if |old(asyncqueue)| == 1000 then Blocked else Sent
      ensures asyncqueue == old(asyncqueue) + if r == Sent then [Txn(userdata, req, None, stamp)] else []
    {
      if req.None? {
        return Skipped;
      }
      r := Send(Txn(userdata, req, None, stamp));
    }

    method LogResponse(resp: Option<Response>, request: Option<Request>, userdata: UserData, stamp: string)
      returns (r: Sending)
      requires Valid()
      modifies `asyncqueue
      ensures Valid()
      ensures r == if resp.None? then Skipped else if closed then Panicked
                   else if |old(asyncqueue)| == 1000 then Blocked else Sent
      ensures asyncqueue == old(asyncqueue) + if r == Sent then [Txn(userdata, request, resp, stamp)] else []
    {
      if resp.None? {
        return Skipped;
      }
      r := Send(Txn(userdata, request, resp, stamp));
    }

    method Close()
      requires !closed
      modifies `closed, sWriter
      ensures closed && (sWriter != null ==> !sWriter.open && sWriter.content == old(sWriter.content))
    {
      if sWriter != null {
        sWriter.Close();
      }
      closed := true;
    }

    /** The name and the stored form of a part; None when it is not stored. */
    method Fill(outputdata: HTTPTransaction) returns (r: Option<HTTPTransaction>)
      requires outputdata.data == ""
      ensures SaveOf(options, outputdata.userdata, outputdata.rawData) ==
              match r case None => [] case Some(out) => [LogSpec.Save.Save(out.name + ".txt", out.rawData)]
    {
      var out := outputdata;
      if !options.dumpRequest && !options.dumpResponse {
        out := out.(partSuffix := "");
      } else if options.dumpRequest && !out.userdata.hasResponse {
        out := out.(partSuffix := ".request");
      } else if options.dumpResponse && out.userdata.hasResponse {
        out := out.(partSuffix := ".response");
      } else {
        return None;
      }
      out := out.(name := out.userdata.host + out.partSuffix + "-" + out.userdata.id);
      if out.userdata.hasResponse && (!options.dumpRequest && !options.dumpResponse) {
        if out.userdata.matched.Some? && out.userdata.matched.value {
          out := out.(name := out.name + ".match");
        }
      }
      NameBuilt(options, outputdata.userdata);
      out := out.(format := "%s");
      if !HasSuffix(out.data, "\n") {
        out := out.(format := "%s\n");
      }
      if out.userdata.hasResponse {
        out := out.(format := "\n" + out.format);
      }
      Formats(out.rawData);
      hide Sprintf;
      out := out.(rawData := Sprintf(out.format, out.rawData));
      if options.maxSize > 0 {
        out := out.(rawData := Truncate(out.rawData, options.maxSize));
      }
      assert "" + outputdata.rawData + "\n" == outputdata.rawData + "\n";
      r := Some(out);
    }

    /** Stores one part in every store, under its name, in its stored form. */
    method StoreWriter(outputdata: HTTPTransaction)
      requires Valid() && outputdata.data == ""
      modifies stores
      ensures forall i | 0 <= i < |stores| ::
                stores[i].files == if stores[i].outputFolder == "" then old(stores[i].files)
                                   else Apply(old(stores[i].files), SaveOf(options, outputdata.userdata, outputdata.rawData))
    {
      hide SaveOf;
      var filled := Fill(outputdata);
      if filled.None? {
        return;
      }
      var out := filled.value;
      ghost var save := LogSpec.Save.Save(out.name + ".txt", out.rawData);
      var i := 0;
      while i < |stores|
        invariant 0 <= i <= |stores|
        invariant forall j | 0 <= j < |stores| ::
                    stores[j].files == if j < i && stores[j].outputFolder != "" then Append(old(stores[j].files), save)
                                       else old(stores[j].files)
      {
        stores[i].Save(out);
        i := i + 1;
      }
      assert forall f: Files :: Apply(f, [save]) == Append(f, save);
    }

    /** The body of the consumer's loop. */
    method Process(httpData: Txn)
      requires Valid()
      modifies stores, sWriter
      ensures forall i | 0 <= i < |stores| ::
                stores[i].files == if stores[i].outputFolder == "" then old(stores[i].files)
                                   else Apply(old(stores[i].files), SavesOf(options, httpData))
      ensures sWriter != null ==> sWriter.open == old(sWriter.open)
      ensures sWriter != null ==>
                sWriter.content == if !sWriter.open then old(sWriter.content)
                                   else old(sWriter.content) +
                                        Framed(LinesOf(Lines(), [httpData]))
    {
      if httpData.request.None? {
        return;
      }
      var reqDump := httpData.request.value.dump;
      var respChain := httpData.response;
      if sWriter != null {
        WriteStructured(httpData);
      }
      if |stores| > 0 {
        var outputData := HTTPTransaction(httpData.userdata.(hasResponse := false), reqDump, "", "", "", "");
        StoreWriter(outputData);
        if respChain.Some? {
          label afterRequest:
          outputData := outputData.(rawData := respChain.value.full,
                                    userdata := outputData.userdata.(hasResponse := true));
          StoreWriter(outputData);
          forall i | 0 <= i < |stores| && stores[i].outputFolder != ""
            ensures stores[i].files == Apply(old(stores[i].files), SavesOf(options, httpData))
          {
            ApplyAppend(old(stores[i].files), RequestSave(options, httpData), ResponseSave(options, httpData));
            assert old@afterRequest(stores[i].files) == Apply(old(stores[i].files), RequestSave(options, httpData));
          }
        } else {
          assert SavesOf(options, httpData) == RequestSave(options, httpData);
        }
      }
    }

    /** The structured entry of a transaction, gated on its verdict. */
    method WriteStructured(httpData: Txn)
      requires sWriter != null && httpData.request.Some?
      modifies sWriter`content
      ensures sWriter.content == if !sWriter.open then old(sWriter.content)
                                 else old(sWriter.content) +
                                      Framed(LinesOf(Lines(), [httpData]))
    {
      if httpData.userdata.matched.Some? {
        if !httpData.userdata.matched.value {
          return;
        }
      }
      var sRequest := httpData.request.value.data;
      if sRequest.None? {
        return;
      }
      if httpData.response.Some? {
        var sData := Record(httpData.stamp, httpData.request.value.url, sRequest.value, httpData.response.value.data);
        sWriter.Write(sData);
      }
    }

    /** The structured configuration of a logger that has a writer. */
    function Lines(): Setup
      requires sWriter != null
    {
      Setup(options, sWriter.encode, true)
    }

    /** One turn of the consumer's loop: what is to come of the queue, on the
        files and on an open structured file, stays the same. */
    method Next()
      requires Valid() && asyncqueue != []
      modifies `asyncqueue, stores, sWriter
      ensures Valid() && asyncqueue == old(asyncqueue)[1..]
      ensures forall i | 0 <= i < |stores| ::
                if stores[i].outputFolder == "" then stores[i].files == old(stores[i].files)
                else Apply(stores[i].files, AllSaves(options, asyncqueue)) == old(Apply(stores[i].files, AllSaves(options, asyncqueue)))
      ensures sWriter != null ==>
                && sWriter.open == old(sWriter.open)
                && if !sWriter.open then sWriter.content == old(sWriter.content)
                   else sWriter.content + Framed(LinesOf(Lines(), asyncqueue))
                        == old(sWriter.content + Framed(LinesOf(Lines(), asyncqueue)))
    {
      hide SavesOf, LineOf, Append;
      ghost var queue := asyncqueue;
      var httpData := asyncqueue[0];
      asyncqueue := asyncqueue[1..];
      Process(httpData);
      forall i | 0 <= i < |stores| && stores[i].outputFolder != ""
        ensures Apply(stores[i].files, AllSaves(options, asyncqueue)) == Apply(old(stores[i].files), AllSaves(options, queue))
      {
        Consume(options, old(stores[i].files), queue);
      }
      if sWriter != null {
        ConsumeLines(Lines(), queue);
      }
    }

    /** The consumer, on what is queued when it runs by itself. */
    method AsyncWrite()
      requires Valid()
      modifies `asyncqueue, stores, sWriter
      ensures Valid() && asyncqueue == []
      ensures forall i | 0 <= i < |stores| ::
                stores[i].files == if stores[i].outputFolder == "" then old(stores[i].files)
                                   else Apply(old(stores[i].files), AllSaves(options, old(asyncqueue)))
      ensures sWriter != null ==>
                sWriter.content == if !old(sWriter.open) then old(sWriter.content)
                                   else old(sWriter.content) +
                                        Framed(LinesOf(Lines(), old(asyncqueue)))
    {
      hide SavesOf, LineOf, Append;
      while asyncqueue != []
        invariant Valid()
        invariant forall i | 0 <= i < |stores| ::
                    if stores[i].outputFolder == "" then stores[i].files == old(stores[i].files)
                    else Apply(stores[i].files, AllSaves(options, asyncqueue))
                         == Apply(old(stores[i].files), AllSaves(options, old(asyncqueue)))
        invariant sWriter != null ==> sWriter.open == old(sWriter.open)
        invariant sWriter != null ==>
                    if !sWriter.open then sWriter.content == old(sWriter.content)
                    else sWriter.content + Framed(LinesOf(Lines(), asyncqueue))
                         == old(sWriter.content) + Framed(LinesOf(Lines(), old(asyncqueue)))
        decreases |asyncqueue|
      {
        Next();
      }
    }
  }

  lemma Formats(raw: string)
    ensures Sprintf("%s\n", raw) == raw + "\n"
    ensures Sprintf("\n" + "%s\n", raw) == "\n" + raw + "\n"
  {
  }

  lemma NameBuilt(o: Options, u: UserData)
    requires PartSuffix(o, u.hasResponse).Some?
    ensures var plain := u.host + PartSuffix(o, u.hasResponse).value + "-" + u.id;
            Name(o, u.host, u.id, u.hasResponse, u.matched) ==
            if MatchTag(o, u.hasResponse, u.matched) == "" then plain else plain + ".match"
  {
  }
}
