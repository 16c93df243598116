/** Byte strings and the string operations of Go's standard library that the
    modelled code uses. A Go string is a sequence of bytes; each `char` here
    stands for one byte. */
module Text {

  datatype Option<+T> = None | Some(value: T)

  /** Go's strings.Split for a one-byte separator: always at least one token. */
  function Split(s: string, sep: char): (tokens: seq<string>)
    ensures |tokens| >= 1
  {
    if s == "" then [""]
    else
      var rest := Split(s[1..], sep);
      if s[0] == sep then [""] + rest
      else [[s[0]] + rest[0]] + rest[1..]
  }

  /** Go's strings.Join. */
  function Join(tokens: seq<string>, sep: string): string {
    if |tokens| == 0 then ""
    else if |tokens| == 1 then tokens[0]
    else tokens[0] + sep + Join(tokens[1..], sep)
  }

  /** Go's strings.ReplaceAll(s, c, "") for a one-byte c. */
  function RemoveChar(s: string, c: char): (r: string)
    ensures c !in r
    ensures |r| <= |s|
    ensures forall x | x in r :: x in s
  {
    if s == "" then ""
    else if s[0] == c then RemoveChar(s[1..], c)
    else [s[0]] + RemoveChar(s[1..], c)
  }

  predicate HasPrefix(s: string, prefix: string) {
    prefix <= s
  }

  predicate HasSuffix(s: string, suffix: string) {
    |suffix| <= |s| && s[|s| - |suffix|..] == suffix
  }

  lemma SuffixMeans(s: string, suffix: string)
    ensures HasSuffix(s, suffix) <==> exists front :: s == front + suffix
    ensures forall front :: s == front + suffix ==> TrimSuffix(s, suffix) == front
  {
    if HasSuffix(s, suffix) {
      assert s == s[..|s| - |suffix|] + suffix;
    }
    forall front | s == front + suffix
      ensures TrimSuffix(s, suffix) == front
    {
      assert s[|front|..] == suffix && s[..|front|] == front;
    }
  }

  /** Go's strings.TrimSuffix. */
  function TrimSuffix(s: string, suffix: string): string {
    if HasSuffix(s, suffix) then s[..|s| - |suffix|] else s
  }

  /** Go's strings.ReplaceAll(s, "\n", "\\n"). */
  function EscapeNewlines(s: string): (r: string)
    ensures '\n' !in r
  {
    if s == "" then ""
    else if s[0] == '\n' then ['\\', 'n'] + EscapeNewlines(s[1..])
    else [s[0]] + EscapeNewlines(s[1..])
  }

  /** A sequence without the separator is one token. */
  lemma {:induction false} SplitFree(s: string, sep: char)
    requires sep !in s
    ensures Split(s, sep) == [s]
  {
    if s != "" {
      SplitFree(s[1..], sep);
      assert [s[0]] + s[1..] == s;
    }
  }

  /** One character in front of a split. */
  lemma SplitFirst(c: char, s: string, sep: char)
    ensures var rest := Split(s, sep);
            Split([c] + s, sep) == if c == sep then [""] + rest else [[c] + rest[0]] + rest[1..]
  {
    assert ([c] + s)[1..] == s;
  }

  /** Splitting at a separator splits the parts on either side of it. */
  lemma {:induction false} SplitAt(a: string, b: string, sep: char)
    ensures Split(a + [sep] + b, sep) == Split(a, sep) + Split(b, sep)
  {
    if a == "" {
      SplitFirst(sep, b, sep);
      assert a + [sep] + b == [sep] + b;
    } else {
      SplitAt(a[1..], b, sep);
      SplitBoth(a[0], a[1..], b, sep);
      assert a == [a[0]] + a[1..];
      assert a + [sep] + b == [a[0]] + (a[1..] + [sep] + b);
    }
  }

  lemma SplitBoth(c: char, a: string, b: string, sep: char)
    requires Split(a + [sep] + b, sep) == Split(a, sep) + Split(b, sep)
    ensures Split([c] + (a + [sep] + b), sep) == Split([c] + a, sep) + Split(b, sep)
  {
    hide Split;
    var x, y := Split(a, sep), Split(b, sep);
    SplitFirst(c, a + [sep] + b, sep);
    SplitFirst(c, a, sep);
    assert (x + y)[0] == x[0] && (x + y)[1..] == x[1..] + y;
  }

  lemma {:induction false} SplitTokensFree(s: string, sep: char)
    ensures forall i | 0 <= i < |Split(s, sep)| :: sep !in Split(s, sep)[i]
  {
    if s != "" {
      SplitTokensFree(s[1..], sep);
    }
  }

  /** No character is invented by splitting. */
  lemma {:induction false} SplitTokensFrom(s: string, sep: char)
    ensures forall i, x | 0 <= i < |Split(s, sep)| && x in Split(s, sep)[i] :: x in s
  {
    if s != "" {
      SplitTokensFrom(s[1..], sep);
      assert forall x | x in s[1..] :: x in s;
    }
  }

  /** split(join(xs)) = xs for a non-empty list of separator-free tokens. */
  lemma {:induction false} SplitJoin(tokens: seq<string>, sep: char)
    requires |tokens| >= 1
    requires forall i | 0 <= i < |tokens| :: sep !in tokens[i]
    ensures Split(Join(tokens, [sep]), sep) == tokens
  {
    if |tokens| == 1 {
      SplitFree(tokens[0], sep);
    } else {
      SplitJoin(tokens[1..], sep);
      SplitAt(tokens[0], Join(tokens[1..], [sep]), sep);
      SplitFree(tokens[0], sep);
      assert Join(tokens, [sep]) == tokens[0] + [sep] + Join(tokens[1..], [sep]);
    }
  }

  /** One token in front of a join. */
  lemma JoinFirst(first: string, rest: seq<string>, sep: string)
    ensures Join([first] + rest, sep) == if rest == [] then first else first + (sep + Join(rest, sep))
  {
    assert ([first] + rest)[1..] == rest;
    assert first + sep + Join(rest, sep) == first + (sep + Join(rest, sep));
  }

  /** One character in front of what is split and joined. */
  lemma JoinSplitFirst(c: char, s: string, sep: char, glue: string)
    ensures Join(Split([c] + s, sep), glue) == (if c == sep then glue else [c]) + Join(Split(s, sep), glue)
  {
    hide Split, Join;
    var rest := Split(s, sep);
    SplitFirst(c, s, sep);
    if c == sep {
      JoinFirst("", rest, glue);
    } else {
      var tail := if rest[1..] == [] then "" else glue + Join(rest[1..], glue);
      JoinFirst([c] + rest[0], rest[1..], glue);
      JoinFirst(rest[0], rest[1..], glue);
      assert rest == [rest[0]] + rest[1..];
      assert [c] + rest[0] + tail == [c] + (rest[0] + tail);
    }
  }

  /** join(split(s)) = s. */
  lemma {:induction false} JoinSplit(s: string, sep: char)
    ensures Join(Split(s, sep), [sep]) == s
  {
    if s != "" {
      JoinSplit(s[1..], sep);
      JoinSplitFirst(s[0], s[1..], sep, [sep]);
      assert s == [s[0]] + s[1..];
    }
  }

  lemma {:induction false} RemoveCharAppend(a: string, b: string, c: char)
    ensures RemoveChar(a + b, c) == RemoveChar(a, c) + RemoveChar(b, c)
  {
    if a == "" {
      assert a + b == b;
    } else {
      assert (a + b)[1..] == a[1..] + b;
      RemoveCharAppend(a[1..], b, c);
    }
  }

  lemma {:induction false} RemoveCharFree(s: string, c: char)
    requires c !in s
    ensures RemoveChar(s, c) == s
  {
    if s != "" {
      RemoveCharFree(s[1..], c);
    }
  }

  /** Escaping acts character by character; a newline becomes a backslash and
      the letter n, and nothing else changes. */
  lemma {:induction false} EscapeAt(a: string, b: string)
    ensures EscapeNewlines(a + "\n" + b) == EscapeNewlines(a) + "\\n" + EscapeNewlines(b)
  {
    var s := a + "\n" + b;
    if a == "" {
      assert s[1..] == b;
      assert "\\n" == ['\\', 'n'];
    } else {
      assert s[1..] == a[1..] + "\n" + b;
      EscapeAt(a[1..], b);
    }
  }

  lemma {:induction false} EscapeFree(s: string)
    requires '\n' !in s
    ensures EscapeNewlines(s) == s
  {
    if s != "" {
      EscapeFree(s[1..]);
    }
  }
}
