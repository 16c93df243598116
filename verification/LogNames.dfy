/** File names of stored transactions, and their parser in the replay tool. */
module LogNames {
  import opened Text

  /** The logger options that decide names and payloads. */
  datatype Options = Options(dumpRequest: bool, dumpResponse: bool, maxSize: int)
  {
    predicate Whole() { !dumpRequest && !dumpResponse }
  }

  /** The part suffix of a stored part; None when the part is not stored. */
  function PartSuffix(o: Options, hasResponse: bool): Option<string> {
    if o.Whole() then Some("")
    else if o.dumpRequest && !hasResponse then Some(".request")
    else if o.dumpResponse && hasResponse then Some(".response")
    else None
  }

  /** The tag that only matching whole responses get. */
  function MatchTag(o: Options, hasResponse: bool, matched: Option<bool>): string {
    if hasResponse && o.Whole() && matched == Some(true) then ".match" else ""
  }

  /** HTTPTransaction.Name as storeWriter builds it. */
  function Name(o: Options, host: string, id: string, hasResponse: bool, matched: Option<bool>): string
    requires PartSuffix(o, hasResponse).Some?
  {
    host + PartSuffix(o, hasResponse).value + "-" + id + MatchTag(o, hasResponse, matched)
  }

  /** An ID that cannot be confused with the separators of a file name. */
  predicate CleanId(id: string) {
    '-' !in id && '.' !in id
  }

  /** The names, spelled out: which parts are stored under which, for every
      choice of flags. */
  lemma NamesSpelled(o: Options, host: string, id: string, hasResponse: bool, matched: Option<bool>)
    ensures PartSuffix(o, hasResponse).None? <==>
            (o.dumpRequest || o.dumpResponse) && (if hasResponse then !o.dumpResponse else !o.dumpRequest)
    ensures PartSuffix(o, hasResponse).Some? ==>
              Name(o, host, id, hasResponse, matched) ==
              if o.dumpRequest || o.dumpResponse then host + (if hasResponse then ".response-" else ".request-") + id
              else if hasResponse && matched == Some(true) then host + "-" + id + ".match"
              else host + "-" + id
  {
    assert host + "" == host && host + "-" + id + "" == host + "-" + id;
    assert host + ".response" + "-" == host + ".response-" && host + ".request" + "-" == host + ".request-";
    assert host + ".response-" + id + "" == host + ".response-" + id && host + ".request-" + id + "" == host + ".request-" + id;
  }

  // ----- the replay parser ----------------------------------------------

  /** The base name without its extensions, as visit reduces it. */
  function Stem(base: string): string {
    TrimSuffix(TrimSuffix(base, ".txt"), ".match")
  }

  function ReplayId(base: string): string {
    var tokens := Split(Stem(base), '-');
    Split(tokens[|tokens| - 1], '.')[0]
  }

  function ReplayHost(base: string): string {
    var tokens := Split(Stem(base), '-');
    Join(tokens[..|tokens| - 1], "")
  }

  /** visit's parse of a path's base name; a name without ".txt" is skipped. */
  method ParseName(base: string) returns (r: Option<(string, string)>)
    ensures r == if HasSuffix(base, ".txt") then Some((ReplayHost(base), ReplayId(base))) else None
  {
    if !HasSuffix(base, ".txt") {
      return None;
    }
    var filename := TrimSuffix(base, ".txt");
    filename := TrimSuffix(filename, ".match");
    var tokens := Split(filename, '-');
    var host := Join(tokens[..|tokens| - 1], "");
    var id := Split(tokens[|tokens| - 1], '.')[0];
    r := Some((host, id));
  }

  // ----- proofs ---------------------------------------------------------

  lemma TrimAppended(s: string, suffix: string)
    ensures TrimSuffix(s + suffix, suffix) == s
  {
  }

  /** The ".match" tag is not a suffix of an untagged name with a clean ID. */
  lemma NoFalseTag(a: string, id: string)
    requires CleanId(id)
    ensures TrimSuffix(a + "-" + id, ".match") == a + "-" + id
  {
    var s := a + "-" + id;
    if |s| >= 6 {
      var at := |s| - 6;
      if at > |a| {
        assert s[at..][0] == s[at] == id[at - |a| - 1] != '.';
      } else {
        assert s[at..][|a| - at] == s[|a|] == '-';
        assert '-' !in ".match";
      }
    }
  }

  lemma StemOfName(o: Options, host: string, id: string, hasResponse: bool, matched: Option<bool>)
    requires PartSuffix(o, hasResponse).Some? && CleanId(id)
    ensures Stem(Name(o, host, id, hasResponse, matched) + ".txt")
            == host + PartSuffix(o, hasResponse).value + "-" + id
  {
    var core := host + PartSuffix(o, hasResponse).value;
    TrimAppended(Name(o, host, id, hasResponse, matched), ".txt");
    if MatchTag(o, hasResponse, matched) == "" {
      NoFalseTag(core, id);
      assert Name(o, host, id, hasResponse, matched) == core + "-" + id;
    } else {
      TrimAppended(core + "-" + id, ".match");
    }
  }

  lemma {:induction false} JoinWithNothing(s: string, sep: char)
    ensures Join(Split(s, sep), "") == RemoveChar(s, sep)
  {
    if s != "" {
      JoinWithNothing(s[1..], sep);
      JoinSplitFirst(s[0], s[1..], sep, "");
      assert s == [s[0]] + s[1..];
    }
  }

  lemma TokensOfName(core: string, id: string)
    requires CleanId(id)
    ensures Split(core + "-" + id, '-') == Split(core, '-') + [id]
  {
    SplitAt(core, id, '-');
    SplitFree(id, '-');
  }

  /** The replay tool recovers the ID, for every host and every option, exactly
      when the ID has no '-' and no '.'. */
  lemma ReplayRecoversId(o: Options, host: string, id: string, hasResponse: bool, matched: Option<bool>)
    requires PartSuffix(o, hasResponse).Some?
    ensures ReplayId(Name(o, host, id, hasResponse, matched) + ".txt") == id <==> CleanId(id)
  {
    var base := Name(o, host, id, hasResponse, matched) + ".txt";
    if CleanId(id) {
      StemOfName(o, host, id, hasResponse, matched);
      TokensOfName(host + PartSuffix(o, hasResponse).value, id);
      SplitFree(id, '.');
    }
    var tokens := Split(Stem(base), '-');
    var last := tokens[|tokens| - 1];
    SplitTokensFree(Stem(base), '-');
    SplitTokensFree(last, '.');
    SplitTokensFrom(last, '.');
    assert Split(last, '.')[0] == ReplayId(base);
  }

  /** What it recovers as the host: the host with every '-' deleted, and the
      part suffix. */
  lemma ReplayHostOfName(o: Options, host: string, id: string, hasResponse: bool, matched: Option<bool>)
    requires PartSuffix(o, hasResponse).Some? && CleanId(id)
    ensures ReplayHost(Name(o, host, id, hasResponse, matched) + ".txt")
            == RemoveChar(host, '-') + PartSuffix(o, hasResponse).value
  {
    var suffix := PartSuffix(o, hasResponse).value;
    StemOfName(o, host, id, hasResponse, matched);
    TokensOfName(host + suffix, id);
    JoinWithNothing(host + suffix, '-');
    RemoveCharAppend(host, suffix, '-');
    RemoveCharFree(suffix, '-');
    var tokens := Split(host + suffix + "-" + id, '-');
    assert tokens[..|tokens| - 1] == Split(host + suffix, '-');
  }

  /** It is the host exactly when the host has no '-' and the transaction was
      stored whole. */
  lemma ReplayRecoversHost(o: Options, host: string, id: string, hasResponse: bool, matched: Option<bool>)
    requires PartSuffix(o, hasResponse).Some? && CleanId(id)
    ensures ReplayHost(Name(o, host, id, hasResponse, matched) + ".txt") == host <==> '-' !in host && o.Whole()
  {
    hide ReplayHost, Name;
    ReplayHostOfName(o, host, id, hasResponse, matched);
    assert '-' !in RemoveChar(host, '-') + PartSuffix(o, hasResponse).value;
    if '-' !in host {
      RemoveCharFree(host, '-');
    }
  }

  lemma TokensOfStem(front: string, last: string)
    requires '-' !in last
    ensures var tokens := Split(front + "-" + last, '-');
            tokens[|tokens| - 1] == last && tokens[..|tokens| - 1] == Split(front, '-')
  {
    SplitAt(front, last, '-');
    SplitFree(last, '-');
    hide Split;
  }

  lemma BeforeDot(id: string, rest: string)
    requires '.' !in id && (rest == "" || rest[0] == '.')
    ensures Split(id + rest, '.')[0] == id
  {
    SplitFree(id, '.');
    hide Split;
    if rest == "" {
      assert id + rest == id;
    } else {
      assert id + rest == id + "." + rest[1..];
      SplitAt(id, rest[1..], '.');
    }
  }

  /** What the parser makes of any name: the ID is what stands between the last
      dash and the next dot, the host what stands before that dash, without its
      dashes. */
  lemma ParseOfName(front: string, id: string, rest: string)
    requires CleanId(id) && '-' !in rest && (rest == "" || rest[0] == '.')
    requires !HasSuffix(front + "-" + (id + rest), ".match")
    ensures var base := front + "-" + (id + rest) + ".txt";
            ReplayHost(base) == RemoveChar(front, '-') && ReplayId(base) == id
  {
    hide Split, Join, RemoveChar, HasSuffix;
    var stem := front + "-" + (id + rest);
    TrimAppended(stem, ".txt");
    assert Stem(stem + ".txt") == stem;
    TokensOfStem(front, id + rest);
    JoinWithNothing(front, '-');
    BeforeDot(id, rest);
  }

  /** With the options fixed, a file name determines the host, the ID and the
      part it holds: distinct transactions and parts go to distinct files. */
  lemma NameInjective(o: Options, h1: string, id1: string, r1: bool, m1: Option<bool>,
                      h2: string, id2: string, r2: bool, m2: Option<bool>)
    requires PartSuffix(o, r1).Some? && PartSuffix(o, r2).Some?
    requires CleanId(id1) && CleanId(id2)
    requires Name(o, h1, id1, r1, m1) == Name(o, h2, id2, r2, m2)
    ensures h1 == h2 && id1 == id2
    ensures PartSuffix(o, r1) == PartSuffix(o, r2) && MatchTag(o, r1, m1) == MatchTag(o, r2, m2)
  {
    ReplayRecoversId(o, h1, id1, r1, m1);
    ReplayRecoversId(o, h2, id2, r2, m2);
    StemOfName(o, h1, id1, r1, m1);
    StemOfName(o, h2, id2, r2, m2);
    var s1, s2 := PartSuffix(o, r1).value, PartSuffix(o, r2).value;
    var c1, c2 := h1 + s1, h2 + s2;
    assert c1 + "-" + id1 == c2 + "-" + id1;
    assert c1 == (c1 + "-" + id1)[..|c1|] && c2 == (c2 + "-" + id1)[..|c2|];
    assert c1 == c2;
    SuffixKnown(o, h1, r1, h2, r2);
    assert h1 == (h1 + s1)[..|h1|] && h2 == (h2 + s2)[..|h2|];
    assert |Name(o, h1, id1, r1, m1)| == |c1| + 1 + |id1| + |MatchTag(o, r1, m1)|;
    assert |Name(o, h2, id2, r2, m2)| == |c2| + 1 + |id2| + |MatchTag(o, r2, m2)|;
  }

  lemma SuffixKnown(o: Options, h1: string, r1: bool, h2: string, r2: bool)
    requires PartSuffix(o, r1).Some? && PartSuffix(o, r2).Some?
    requires h1 + PartSuffix(o, r1).value == h2 + PartSuffix(o, r2).value
    ensures PartSuffix(o, r1) == PartSuffix(o, r2)
  {
    var s1, s2 := PartSuffix(o, r1).value, PartSuffix(o, r2).value;
    var whole := h1 + s1;
    assert s1 != "" ==> whole[|whole| - 1] == s1[|s1| - 1];
    assert s2 != "" ==> whole[|whole| - 1] == s2[|s2| - 1];
  }
}
