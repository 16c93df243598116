/** The split of a log file into request and response by swaggergen. */
module LogSplit {
  import opened Text

  /** A status line of HTTP/1.0 or HTTP/1.1 starts here, up to its first space. */
  predicate StatusPrefix(s: string) {
    HasPrefix(s, "HTTP/1.0 ") || HasPrefix(s, "HTTP/1.1 ")
  }

  /** The pattern "\n(HTTP\/1\.[0-1] (.|\n)*)" matches at i, to the end. */
  predicate MatchesAt(s: string, i: nat) {
    i < |s| && s[i] == '\n' && StatusPrefix(s[i + 1..])
  }

  /** The pattern, letter by letter: a newline, HTTP/1, a dot, 0 or 1, a space. */
  lemma PatternMeans(s: string, i: nat)
    requires i <= |s|
    ensures MatchesAt(s, i) <==> exists c | c in {'0', '1'} :: "\nHTTP/1." + [c] + " " <= s[i..]
  {
    var t := s[i..];
    if i < |s| {
      assert t[1..] == s[i + 1..];
      forall c | c in {'0', '1'}
        ensures "\nHTTP/1." + [c] + " " <= t <==> t[0] == '\n' && "HTTP/1." + [c] + " " <= t[1..]
      {
        Prepended('\n', "HTTP/1." + [c] + " ", t);
        assert "\nHTTP/1." + [c] + " " == ['\n'] + ("HTTP/1." + [c] + " ");
      }
      assert "HTTP/1." + ['0'] + " " == "HTTP/1.0 " && "HTTP/1." + ['1'] + " " == "HTTP/1.1 ";
    }
  }

  lemma Prepended(c: char, p: string, t: string)
    requires t != ""
    ensures [c] + p <= t <==> t[0] == c && p <= t[1..]
  {
    if [c] + p <= t {
      assert t[1..][..|p|] == ([c] + p)[1..];
    }
    if t[0] == c && p <= t[1..] {
      assert t[..1 + |p|] == [c] + p;
    }
  }

  /** FindString with the leading newline trimmed: the text after the leftmost
      matching newline, or "" when there is none. */
  function ReadBack(s: string): string {
    if s == "" then ""
    else if MatchesAt(s, 0) then s[1..]
    else ReadBack(s[1..])
  }

  /** ReadBack is the leftmost match, and nothing when no position matches. */
  lemma {:induction false} ReadBackLeftmost(s: string, i: nat)
    requires MatchesAt(s, i) && forall j | 0 <= j < i :: !MatchesAt(s, j)
    ensures ReadBack(s) == s[i + 1..]
  {
    if i > 0 {
      forall j: nat | j < i - 1
        ensures MatchesAt(s[1..], j) == MatchesAt(s, j + 1)
      {
        assert s[1..][j + 1..] == s[j + 2..];
      }
      assert s[1..][i..] == s[i + 1..];
      ReadBackLeftmost(s[1..], i - 1);
    }
  }

  lemma {:induction false} ReadBackNone(s: string)
    requires forall j: nat :: !MatchesAt(s, j)
    ensures ReadBack(s) == ""
  {
    if s != "" {
      forall j: nat
        ensures !MatchesAt(s[1..], j)
      {
        assert !MatchesAt(s, j + 1);
        if j < |s[1..]| {
          assert s[1..][j + 1..] == s[j + 2..];
        }
      }
      ReadBackNone(s[1..]);
    }
  }

  /** What one stored pair looks like: the two request dumps and the response. */
  function PairFile(r1: string, r2: string, s: string): string {
    r1 + "\n" + r2 + "\n\n" + s + "\n"
  }

  /** Some line after the first looks like a status line. */
  ghost predicate LaterStatusLine(r: string) {
    exists i: nat :: 1 <= i < |Split(r, '\n')| && StatusPrefix(Split(r, '\n')[i])
  }

  /** The pattern fits inside a line: what follows the line cannot complete it. */
  lemma StatusWithinLine(line: string, rest: string)
    requires rest == "" || rest[0] == '\n'
    ensures StatusPrefix(line + rest) <==> StatusPrefix(line)
  {
    StatusOf(line, rest, "HTTP/1.0 ");
    StatusOf(line, rest, "HTTP/1.1 ");
  }

  lemma StatusOf(line: string, rest: string, p: string)
    requires rest == "" || rest[0] == '\n'
    requires '\n' !in p
    ensures HasPrefix(line + rest, p) <==> HasPrefix(line, p)
  {
    var s := line + rest;
    if HasPrefix(line, p) {
      assert s[..|p|] == line[..|p|];
    }
    if |line| < |p| <= |s| {
      assert s[|line|] == '\n' != p[|line|];
    }
    if HasPrefix(s, p) {
      assert line[..|p|] == s[..|p|];
    }
  }

  /** The positions in r where the pattern matches are its later status lines. */
  lemma {:induction false} MatchIffLater(r: string, tail: string)
    requires tail == "" || tail[0] == '\n'
    ensures (exists i: nat :: i < |r| && MatchesAt(r + tail, i)) <==> LaterStatusLine(r)
    decreases |r|
  {
    if exists k: nat :: k < |r| && r[k] == '\n' {
      var k := FirstNewline(r);
      var first, rest := r[..k], r[k + 1..];
      assert r == first + ['\n'] + rest;
      SplitAt(first, rest, '\n');
      SplitFree(first, '\n');
      assert Split(r, '\n') == [first] + Split(rest, '\n');
      MatchIffLater(rest, tail);
      FirstTokenStatus(rest, tail);
      ShiftMatches(r, rest, tail, k);
      ShiftLater(r, rest, first);
    } else {
      SplitFree(r, '\n');
      assert forall i: nat | i < |r| :: (r + tail)[i] == r[i];
    }
  }

  lemma FirstNewline(r: string) returns (k: nat)
    requires exists k: nat :: k < |r| && r[k] == '\n'
    ensures k < |r| && r[k] == '\n' && '\n' !in r[..k]
  {
    k := 0;
    while r[k] != '\n'
      invariant k < |r| && '\n' !in r[..k]
      invariant exists j: nat :: k <= j < |r| && r[j] == '\n'
      decreases |r| - k
    {
      assert r[..k + 1] == r[..k] + [r[k]];
      k := k + 1;
    }
  }

  /** The text at the start of r + tail is a status line iff r's first line is. */
  lemma FirstTokenStatus(r: string, tail: string)
    requires tail == "" || tail[0] == '\n'
    ensures StatusPrefix(r + tail) <==> StatusPrefix(Split(r, '\n')[0])
  {
    hide StatusPrefix;
    if exists k: nat :: k < |r| && r[k] == '\n' {
      var k := FirstNewline(r);
      assert r == r[..k] + ['\n'] + r[k + 1..];
      SplitAt(r[..k], r[k + 1..], '\n');
      SplitFree(r[..k], '\n');
      assert r + tail == r[..k] + (['\n'] + r[k + 1..] + tail);
      StatusWithinLine(r[..k], ['\n'] + r[k + 1..] + tail);
    } else {
      SplitFree(r, '\n');
      StatusWithinLine(r, tail);
    }
  }

  /** Matches of r + tail are one at the first newline or matches further on. */
  lemma ShiftMatches(r: string, rest: string, tail: string, k: nat)
    requires k < |r| && r[k] == '\n' && '\n' !in r[..k] && rest == r[k + 1..]
    ensures (exists i: nat :: i < |r| && MatchesAt(r + tail, i)) <==>
            StatusPrefix(rest + tail) || exists i: nat :: i < |rest| && MatchesAt(rest + tail, i)
  {
    var s := r + tail;
    assert s[k + 1..] == rest + tail;
    assert MatchesAt(s, k) <==> StatusPrefix(rest + tail);
    forall i: nat | i < |r|
      ensures i < k ==> !MatchesAt(s, i)
      ensures i > k ==> (MatchesAt(s, i) <==> MatchesAt(rest + tail, i - k - 1))
    {
      if i < k {
        assert s[i] == r[..k][i];
      } else if i > k {
        assert (rest + tail)[i - k - 1..][1..] == s[i + 1..];
        assert (rest + tail)[i - k..] == s[i + 1..];
      }
    }
    if exists i: nat :: i < |rest| && MatchesAt(rest + tail, i) {
      var i: nat :| i < |rest| && MatchesAt(rest + tail, i);
      assert MatchesAt(s, i + k + 1);
    }
  }

  lemma ShiftLater(r: string, rest: string, first: string)
    requires Split(r, '\n') == [first] + Split(rest, '\n')
    ensures LaterStatusLine(r) <==> StatusPrefix(Split(rest, '\n')[0]) || LaterStatusLine(rest)
  {
    var a, b := Split(r, '\n'), Split(rest, '\n');
    assert forall i: nat | 1 <= i < |a| :: a[i] == b[i - 1];
    if LaterStatusLine(rest) {
      var i: nat :| 1 <= i < |b| && StatusPrefix(b[i]);
      assert StatusPrefix(a[i + 1]);
    }
    if StatusPrefix(b[0]) {
      assert StatusPrefix(a[1]);
    }
  }

  /** The exact condition of the log round trip: the response part read back
      from a stored pair is what was stored, iff it starts like a status line
      and no line of the requests after the first does. */
  lemma PairSplit(r1: string, r2: string, s: string)
    ensures ReadBack(PairFile(r1, r2, s)) == s + "\n"
            <==> StatusPrefix(s) && !LaterStatusLine(r1 + "\n" + r2)
  {
    var r := r1 + "\n" + r2;
    var tail := "\n\n" + s + "\n";
    var f := PairFile(r1, r2, s);
    assert f == r + tail;
    MatchIffLater(r, tail);
    StatusWithinLine(s, "\n");
    assert f[|r| + 1..] == "\n" + s + "\n";
    assert f[|r| + 2..] == s + "\n";
    assert f[|r| + 1..][0] == '\n';
    assert MatchesAt(f, |r| + 1) <==> StatusPrefix(s);
    if exists i: nat :: MatchesAt(f, i) {
      var i := FirstMatch(f);
      ReadBackLeftmost(f, i);
      assert |f[i + 1..]| == |s + "\n"| <==> i == |r| + 1;
    } else {
      ReadBackNone(f);
    }
  }

  /** The same with everything spelled out: the file, the two status lines, and
      the lines of the two request dumps after the first. */
  lemma PairRoundTrip(r1: string, r2: string, s: string)
    ensures var lines := Split(r1 + "\n" + r2, '\n');
            ReadBack(r1 + "\n" + r2 + "\n\n" + s + "\n") == s + "\n" <==>
              && ("HTTP/1.0 " <= s || "HTTP/1.1 " <= s)
              && forall i | 1 <= i < |lines| :: !("HTTP/1.0 " <= lines[i]) && !("HTTP/1.1 " <= lines[i])
  {
    PairSplit(r1, r2, s);
    hide ReadBack, Split;
  }

  /** What is read back of any file, spelled out: the text after the first
      newline that "HTTP/1.", 0 or 1, and a space follow; nothing without one. */
  lemma ReadBackSpelled(f: string, i: nat, c: char)
    requires i <= |f|
    ensures c in {'0', '1'} && "\nHTTP/1." + [c] + " " <= f[i..] &&
            (forall j: nat, d | j < i && d in {'0', '1'} :: !("\nHTTP/1." + [d] + " " <= f[j..])) ==>
              i < |f| && ReadBack(f) == f[i + 1..]
    ensures (forall j: nat, d | j <= |f| && d in {'0', '1'} :: !("\nHTTP/1." + [d] + " " <= f[j..])) ==>
              ReadBack(f) == ""
  {
    hide ReadBack, MatchesAt;
    forall j: nat | j <= |f|
      ensures MatchesAt(f, j) <==> exists d | d in {'0', '1'} :: "\nHTTP/1." + [d] + " " <= f[j..]
    {
      PatternMeans(f, j);
    }
    if c in {'0', '1'} && "\nHTTP/1." + [c] + " " <= f[i..] {
      assert |"\nHTTP/1." + [c] + " "| > 0;
      if forall j: nat, d | j < i && d in {'0', '1'} :: !("\nHTTP/1." + [d] + " " <= f[j..]) {
        ReadBackLeftmost(f, i);
      }
    }
    if forall j: nat, d | j <= |f| && d in {'0', '1'} :: !("\nHTTP/1." + [d] + " " <= f[j..]) {
      NoMatchBeyond(f);
      ReadBackNone(f);
    }
  }

  lemma NoMatchBeyond(f: string)
    ensures forall j: nat | j >= |f| :: !MatchesAt(f, j)
  {
  }

  lemma FirstMatch(s: string) returns (i: nat)
    requires exists i: nat :: MatchesAt(s, i)
    ensures MatchesAt(s, i) && forall j | 0 <= j < i :: !MatchesAt(s, j)
  {
    i := 0;
    while !MatchesAt(s, i)
      invariant forall j | 0 <= j < i :: !MatchesAt(s, j)
      invariant exists j: nat :: i <= j && MatchesAt(s, j)
      decreases |s| - i
    {
      i := i + 1;
    }
  }
}
