/** From a whole run of the logger to what the readers get back: the file of
    one request/response pair, among any other transactions. */
module LogPairs {
  import opened Text
  import opened LogNames
  import opened LogSpec
  import LogSplit

  /** The transactions of one ID, in order. */
  function WithId(ts: seq<Txn>, id: string): seq<Txn> {
    if ts == [] then []
    else (if ts[0].userdata.id == id then [ts[0]] else []) + WithId(ts[1..], id)
  }

  ghost predicate CleanIds(ts: seq<Txn>) {
    forall i | 0 <= i < |ts| :: CleanId(ts[i].userdata.id)
  }

  /** A file name carries its transaction's ID. */
  lemma SavesCarryId(o: Options, t: Txn, host: string, id: string, hasResponse: bool, matched: Option<bool>)
    requires PartSuffix(o, hasResponse).Some? && CleanId(id) && CleanId(t.userdata.id) && t.userdata.id != id
    ensures ContentOf(SavesOf(o, t), Name(o, host, id, hasResponse, matched) + ".txt") == ""
  {
    var file := Name(o, host, id, hasResponse, matched) + ".txt";
    forall i | 0 <= i < |SavesOf(o, t)|
      ensures SavesOf(o, t)[i].file != file
    {
      ReplayRecoversId(o, host, id, hasResponse, matched);
      var u := t.userdata;
      forall r: bool | PartSuffix(o, r).Some?
        ensures Name(o, u.host, u.id, r, u.matched) + ".txt" != file
      {
        ReplayRecoversId(o, u.host, u.id, r, u.matched);
      }
    }
    NoContent(SavesOf(o, t), file);
  }

  lemma {:induction false} NoContent(saves: seq<Save>, file: string)
    requires forall i | 0 <= i < |saves| :: saves[i].file != file
    ensures ContentOf(saves, file) == ""
  {
    if saves != [] {
      NoContent(saves[1..], file);
    }
  }

  /** A file depends only on the transactions of the ID in its name. */
  lemma {:induction false} OnlyItsId(o: Options, ts: seq<Txn>, host: string, id: string, hasResponse: bool, matched: Option<bool>)
    requires PartSuffix(o, hasResponse).Some? && CleanId(id) && CleanIds(ts)
    ensures var file := Name(o, host, id, hasResponse, matched) + ".txt";
            ContentOf(AllSaves(o, ts), file) == ContentOf(AllSaves(o, WithId(ts, id)), file)
  {
    if ts != [] {
      var file := Name(o, host, id, hasResponse, matched) + ".txt";
      assert forall i | 0 <= i < |ts[1..]| :: ts[1..][i] == ts[i + 1];
      OnlyItsId(o, ts[1..], host, id, hasResponse, matched);
      ContentOfAppend(SavesOf(o, ts[0]), AllSaves(o, ts[1..]), file);
      if ts[0].userdata.id == id {
        assert WithId(ts, id) == [ts[0]] + WithId(ts[1..], id);
        ContentOfAppend(SavesOf(o, ts[0]), AllSaves(o, WithId(ts[1..], id)), file);
      } else {
        SavesCarryId(o, ts[0], host, id, hasResponse, matched);
        assert [] + WithId(ts[1..], id) == WithId(ts[1..], id);
      }
    }
  }

  /** The two transactions the proxy logs for one exchange: the request when it
      is seen, and the request again, as it then is, with the response. */
  predicate IsPair(a: Txn, b: Txn) {
    && a.request.Some? && a.response.None?
    && b.request.Some? && b.response.Some?
    && a.userdata.id == b.userdata.id && a.userdata.host == b.userdata.host
  }

  predicate Untruncated(o: Options, a: Txn, b: Txn)
    requires IsPair(a, b)
  {
    o.maxSize <= 0 ||
    (|a.request.value.dump| < o.maxSize && |b.request.value.dump| < o.maxSize &&
     |b.response.value.full| + 1 < o.maxSize)
  }

  function PlainFile(t: Txn): string {
    t.userdata.host + "-" + t.userdata.id + ".txt"
  }

  function MatchFile(t: Txn): string {
    t.userdata.host + "-" + t.userdata.id + ".match.txt"
  }

  /** The saves of a pair, with no dump flag and no truncation. */
  lemma PairSaves(o: Options, a: Txn, b: Txn)
    requires IsPair(a, b) && o.Whole() && Untruncated(o, a, b)
    ensures AllSaves(o, [a, b]) ==
            [Save(PlainFile(a), a.request.value.dump + "\n"),
             Save(PlainFile(a), b.request.value.dump + "\n"),
             Save(if b.userdata.matched == Some(true) then MatchFile(a) else PlainFile(a),
                  "\n" + b.response.value.full + "\n")]
  {
    PlainName(o, a.userdata, false);
    PlainName(o, b.userdata, false);
    PlainName(o, b.userdata, true);
    assert "" + a.request.value.dump + "\n" == a.request.value.dump + "\n";
    assert "" + b.request.value.dump + "\n" == b.request.value.dump + "\n";
    assert [a, b][1..] == [b] && [b][1..] == [];
    assert AllSaves(o, [b]) == SavesOf(o, b) + AllSaves(o, []);
    assert AllSaves(o, [a, b]) == SavesOf(o, a) + AllSaves(o, [b]);
    assert RequestSave(o, a) == [Save(PlainFile(a), a.request.value.dump + "\n")];
    assert RequestSave(o, b) == [Save(PlainFile(a), b.request.value.dump + "\n")];
  }

  lemma PlainName(o: Options, u: UserData, hasResponse: bool)
    requires o.Whole()
    ensures Name(o, u.host, u.id, hasResponse, u.matched) + ".txt" ==
            if hasResponse && u.matched == Some(true) then u.host + "-" + u.id + ".match.txt"
            else u.host + "-" + u.id + ".txt"
  {
  }

  lemma FilesDiffer(t: Txn)
    ensures PlainFile(t) != MatchFile(t)
  {
  }

  lemma PairContents(o: Options, a: Txn, b: Txn)
    requires IsPair(a, b) && o.Whole() && Untruncated(o, a, b)
    ensures var r1, r2, s := a.request.value.dump, b.request.value.dump, b.response.value.full;
            var saves := AllSaves(o, [a, b]);
            if b.userdata.matched == Some(true)
            then ContentOf(saves, PlainFile(a)) == r1 + "\n" + r2 + "\n" &&
                 ContentOf(saves, MatchFile(a)) == "\n" + s + "\n"
            else ContentOf(saves, PlainFile(a)) == LogSplit.PairFile(r1, r2, s) &&
                 ContentOf(saves, MatchFile(a)) == ""
  {
    var r1, r2, s := a.request.value.dump, b.request.value.dump, b.response.value.full;
    hide AllSaves, SavesOf, ContentOf, PlainFile, MatchFile, Untruncated, LogSplit.PairFile;
    PairSaves(o, a, b);
    FilesDiffer(a);
    ThreeSaves(AllSaves(o, [a, b]), PlainFile(a));
    ThreeSaves(AllSaves(o, [a, b]), MatchFile(a));
    Glue(r1 + "\n", r2 + "\n", "\n" + s + "\n");
    PairFileParts(r1, r2, s);
  }

  lemma PairFileParts(r1: string, r2: string, s: string)
    ensures LogSplit.PairFile(r1, r2, s) == r1 + "\n" + (r2 + "\n") + ("\n" + s + "\n")
  {
    assert "\n\n" == "\n" + "\n";
  }

  /** The ways three payloads fall on two files. */
  lemma Glue(x: string, y: string, z: string)
    ensures x + (y + z) == x + y + z && x + (y + "") == x + y && "" + ("" + z) == z && "" + ("" + "") == ""
  {
  }

  /** The stored files of a pair among any other transactions: one file with
      both requests and the response; or, when its verdict is true, the
      response alone in the ".match" file. */
  lemma PairStored(o: Options, ts: seq<Txn>, a: Txn, b: Txn)
    requires IsPair(a, b) && o.Whole() && Untruncated(o, a, b)
    requires CleanIds(ts) && WithId(ts, a.userdata.id) == [a, b] && CleanId(a.userdata.id)
    ensures var r1, r2, s := a.request.value.dump, b.request.value.dump, b.response.value.full;
            var saves := AllSaves(o, ts);
            if b.userdata.matched == Some(true)
            then ContentOf(saves, PlainFile(a)) == r1 + "\n" + r2 + "\n" &&
                 ContentOf(saves, MatchFile(a)) == "\n" + s + "\n"
            else ContentOf(saves, PlainFile(a)) == LogSplit.PairFile(r1, r2, s) &&
                 ContentOf(saves, MatchFile(a)) == ""
  {
    var u := a.userdata;
    PlainName(o, u, false);
    OnlyItsId(o, ts, u.host, u.id, false, u.matched);
    PlainName(o, u.(matched := Some(true)), true);
    OnlyItsId(o, ts, u.host, u.id, true, Some(true));
    PairContents(o, a, b);
  }

  lemma ThreeSaves(saves: seq<Save>, file: string)
    requires |saves| == 3
    ensures ContentOf(saves, file) ==
            (if saves[0].file == file then saves[0].payload else "") +
            ((if saves[1].file == file then saves[1].payload else "") +
             (if saves[2].file == file then saves[2].payload else ""))
  {
    assert saves[1..][1..] == saves[2..] && saves[2..][1..] == [];
    assert ContentOf(saves[2..], file) == (if saves[2].file == file then saves[2].payload else "") + "";
  }

  /** What swaggergen reads back as the response of a pair logged whole, among
      any other transactions, and exactly when it is the stored response. */
  lemma PairReadBack(o: Options, ts: seq<Txn>, a: Txn, b: Txn)
    requires IsPair(a, b) && o.Whole() && Untruncated(o, a, b) && b.userdata.matched != Some(true)
    requires CleanIds(ts) && WithId(ts, a.userdata.id) == [a, b] && CleanId(a.userdata.id)
    ensures LogSplit.ReadBack(ContentOf(AllSaves(o, ts), PlainFile(a))) == b.response.value.full + "\n"
            <==> LogSplit.StatusPrefix(b.response.value.full) &&
                 !LogSplit.LaterStatusLine(a.request.value.dump + "\n" + b.request.value.dump)
  {
    PairStored(o, ts, a, b);
    LogSplit.PairSplit(a.request.value.dump, b.request.value.dump, b.response.value.full);
  }
}
