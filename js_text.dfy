/** The pieces of JavaScript's string library that the client and the worker
    lean on: `trim()`, `split("\n")` (with `join("\n")` as its inverse) and
    `startsWith`. Strings are sequences of Unicode scalar values. */
module JsText {

  /** The characters `String.prototype.trim` strips: the WhiteSpace and
      LineTerminator productions of ECMAScript (tab, line feed, vertical tab,
      form feed, carriage return, every space separator, the byte order mark,
      and the line and paragraph separators). */
  predicate IsWhitespace(c: char) {
    || c == '\t' || c == '\n' || c == '\U{000B}' || c == '\U{000C}' || c == '\r'
    || c == ' ' || c == '\U{00A0}' || c == '\U{1680}'
    || ('\U{2000}' <= c <= '\U{200A}')
    || c == '\U{2028}' || c == '\U{2029}' || c == '\U{202F}' || c == '\U{205F}'
    || c == '\U{3000}' || c == '\U{FEFF}'
  }

  /** Every character of `s` is whitespace. */
  predicate AllWhitespace(s: string)
    decreases |s|
  {
    s == [] || (IsWhitespace(s[0]) && AllWhitespace(s[1..]))
  }

  lemma {:induction false} AllWhitespaceAppend(s: string, c: char)
    requires AllWhitespace(s) && IsWhitespace(c)
    ensures AllWhitespace(s + [c])
    decreases |s|
  {
    if s != [] {
      AllWhitespaceAppend(s[1..], c);
      assert (s + [c])[1..] == s[1..] + [c];
    }
  }

  lemma {:induction false} AllWhitespaceConcat(a: string, b: string)
    requires AllWhitespace(a) && AllWhitespace(b)
    ensures AllWhitespace(a + b)
    decreases |a|
  {
    if a != [] {
      AllWhitespaceConcat(a[1..], b);
      assert (a + b)[1..] == a[1..] + b;
    } else {
      assert a + b == b;
    }
  }

  /** `s.trimStart()`. */
  function TrimStart(s: string): string
    decreases |s|
  {
    if s != [] && IsWhitespace(s[0]) then TrimStart(s[1..]) else s
  }

  /** `s.trimEnd()`. */
  function TrimEnd(s: string): string
    decreases |s|
  {
    if s != [] && IsWhitespace(s[|s| - 1]) then TrimEnd(s[..|s| - 1]) else s
  }

  /** `s.trim()`: no longer than the input, and neither starting nor ending
      with whitespace. */
  function Trim(s: string): (r: string)
    ensures |r| <= |s|
    ensures r != [] ==> !IsWhitespace(r[0]) && !IsWhitespace(r[|r| - 1])
  {
    TrimStartSpec(s);
    TrimEndSpec(TrimStart(s));
    TrimEnd(TrimStart(s))
  }

  /** Leading whitespace removed: the result is a suffix of `s`, everything cut
      off is whitespace, and the result does not itself start with whitespace. */
  lemma {:induction false} TrimStartSpec(s: string)
    ensures var r := TrimStart(s);
      && |r| <= |s| && r == s[|s| - |r|..]
      && AllWhitespace(s[..|s| - |r|])
      && (r != [] ==> !IsWhitespace(r[0]))
    decreases |s|
  {
    if s != [] && IsWhitespace(s[0]) {
      var r := TrimStart(s[1..]);
      assert TrimStart(s) == r;
      TrimStartSpec(s[1..]);
      var cut := s[..|s| - |r|];
      assert cut[0] == s[0];
      assert cut[1..] == s[1..][..|s| - 1 - |r|];
      assert r == s[1..][|s| - 1 - |r|..] == s[|s| - |r|..];
    } else {
      assert s[..0] == [];
    }
  }

  /** Trailing whitespace removed: the result is a prefix of `s`, everything
      cut off is whitespace, and the result does not end with whitespace. */
  lemma {:induction false} TrimEndSpec(s: string)
    ensures var r := TrimEnd(s);
      && r <= s
      && AllWhitespace(s[|r|..])
      && (r != [] ==> !IsWhitespace(r[|r| - 1]))
    decreases |s|
  {
    if s != [] && IsWhitespace(s[|s| - 1]) {
      var r := TrimEnd(s[..|s| - 1]);
      TrimEndSpec(s[..|s| - 1]);
      assert s[|r|..] == s[..|s| - 1][|r|..] + [s[|s| - 1]];
      AllWhitespaceAppend(s[..|s| - 1][|r|..], s[|s| - 1]);
    } else {
      assert s[|s|..] == [];
    }
  }

  /** The trimmed string neither starts nor ends with whitespace, and it is a
      contiguous piece of the input. */
  lemma TrimSpec(s: string)
    ensures var r := Trim(s);
      && (r != [] ==> !IsWhitespace(r[0]) && !IsWhitespace(r[|r| - 1]))
      && |TrimStart(s)| <= |s| && r <= s[|s| - |TrimStart(s)|..]
  {
    TrimStartSpec(s);
    TrimEndSpec(TrimStart(s));
    var t := TrimStart(s);
    var r := TrimEnd(t);
    if r != [] {
      assert r[0] == t[0];
    }
  }

  /** `s.trim()` is empty exactly when `s` consists of whitespace only; this is
      the test `!line.trim()` and `message === ""` perform. */
  lemma {:induction false} TrimEmptyIff(s: string)
    ensures Trim(s) == [] <==> AllWhitespace(s)
  {
    var t := TrimStart(s);
    TrimStartSpec(s);
    TrimEndSpec(t);
    if Trim(s) == [] {
      assert t[0..] == t;
      assert s == s[..|s| - |t|] + t;
      AllWhitespaceConcat(s[..|s| - |t|], t);
    }
    if AllWhitespace(s) {
      TrimStartOfWhitespace(s);
    }
  }

  lemma {:induction false} TrimStartOfWhitespace(s: string)
    requires AllWhitespace(s)
    ensures TrimStart(s) == []
    decreases |s|
  {
    if s != [] {
      TrimStartOfWhitespace(s[1..]);
    }
  }

  /** `s.split("\n")`: the pieces between line feeds, in order. An empty
      string gives one empty piece, and so does each line feed at either end. */
  function SplitLines(s: string): (r: seq<string>)
    ensures |r| >= 1
  {
    SplitAfter(s, "")
  }

  /** The pieces of `cur + s` when the piece being read so far is `cur`:
      a line feed closes the current piece, any other character extends it. */
  function SplitAfter(s: string, cur: string): (r: seq<string>)
    ensures |r| >= 1
    decreases |s|
  {
    if s == [] then [cur]
    else if s[0] == '\n' then [cur] + SplitAfter(s[1..], "")
    else SplitAfter(s[1..], cur + [s[0]])
  }

  lemma {:induction false} SplitAfterNoLineFeed(s: string, cur: string)
    requires '\n' !in cur
    ensures forall i :: 0 <= i < |SplitAfter(s, cur)| ==> '\n' !in SplitAfter(s, cur)[i]
    decreases |s|
  {
    if s != [] {
      if s[0] == '\n' {
        SplitAfterNoLineFeed(s[1..], "");
      } else {
        assert forall c :: c in cur + [s[0]] ==> c in cur || c == s[0];
        SplitAfterNoLineFeed(s[1..], cur + [s[0]]);
      }
    }
  }

  /** No piece of a split holds a line feed: every `"\n"` is a separator. */
  lemma SplitLinesNoLineFeed(s: string)
    ensures forall i :: 0 <= i < |SplitLines(s)| ==> '\n' !in SplitLines(s)[i]
  {
    SplitAfterNoLineFeed(s, "");
  }

  /** `parts.join("\n")`. */
  function JoinLines(parts: seq<string>): string
    decreases |parts|
  {
    if parts == [] then ""
    else if |parts| == 1 then parts[0]
    else parts[0] + "\n" + JoinLines(parts[1..])
  }

  lemma {:induction false} JoinSplitAfter(s: string, cur: string)
    ensures JoinLines(SplitAfter(s, cur)) == cur + s
    decreases |s|
  {
    if s == [] {
      assert cur + s == cur;
    } else if s[0] == '\n' {
      var rest := SplitAfter(s[1..], "");
      JoinSplitAfter(s[1..], "");
      assert ([cur] + rest)[1..] == rest;
      assert "" + s[1..] == s[1..];
      assert cur + "\n" + s[1..] == cur + s by {
        assert s == "\n" + s[1..];
      }
    } else {
      JoinSplitAfter(s[1..], cur + [s[0]]);
      assert cur + [s[0]] + s[1..] == cur + s by {
        assert s == [s[0]] + s[1..];
      }
    }
  }

  /** Splitting loses nothing: joining the pieces back gives the input. */
  lemma JoinSplit(s: string)
    ensures JoinLines(SplitLines(s)) == s
  {
    JoinSplitAfter(s, "");
    assert "" + s == s;
  }

  lemma {:induction false} SplitAfterSingle(s: string, cur: string)
    requires '\n' !in s
    ensures SplitAfter(s, cur) == [cur + s]
    decreases |s|
  {
    if s == [] {
      assert cur + s == cur;
    } else {
      assert s[0] in s;
      assert forall c :: c in s[1..] ==> c in s;
      SplitAfterSingle(s[1..], cur + [s[0]]);
      assert cur + [s[0]] + s[1..] == cur + s by {
        assert s == [s[0]] + s[1..];
      }
    }
  }

  /** A piece without a line feed splits into itself. */
  lemma SplitSingleLine(s: string)
    requires '\n' !in s
    ensures SplitLines(s) == [s]
  {
    SplitAfterSingle(s, "");
    assert "" + s == s;
  }

  lemma {:induction false} SplitAfterPrefixed(head: string, tail: string, cur: string)
    requires '\n' !in head
    ensures SplitAfter(head + "\n" + tail, cur) == [cur + head] + SplitAfter(tail, "")
    decreases |head|
  {
    var s := head + "\n" + tail;
    if head == [] {
      assert s == "\n" + tail;
      assert s[1..] == tail;
      assert cur + head == cur;
    } else {
      assert head[0] in head;
      assert forall c :: c in head[1..] ==> c in head;
      SplitAfterPrefixed(head[1..], tail, cur + [head[0]]);
      assert s[0] == head[0];
      assert s[1..] == head[1..] + "\n" + tail;
      assert cur + [head[0]] + head[1..] == cur + head by {
        assert head == [head[0]] + head[1..];
      }
    }
  }

  /** A line-feed-free piece, a line feed and a tail split into the piece
      followed by the pieces of the tail. */
  lemma SplitPrefixed(head: string, tail: string)
    requires '\n' !in head
    ensures SplitLines(head + "\n" + tail) == [head] + SplitLines(tail)
  {
    SplitAfterPrefixed(head, tail, "");
    assert "" + head == head;
  }

  /** Splitting inverts joining, as long as no piece holds a line feed. */
  lemma {:induction false} SplitJoin(parts: seq<string>)
    requires parts != []
    requires forall i :: 0 <= i < |parts| ==> '\n' !in parts[i]
    ensures SplitLines(JoinLines(parts)) == parts
    decreases |parts|
  {
    if |parts| == 1 {
      SplitSingleLine(parts[0]);
    } else {
      SplitJoin(parts[1..]);
      SplitPrefixed(parts[0], JoinLines(parts[1..]));
      assert [parts[0]] + parts[1..] == parts;
    }
  }

  /** Concatenation regroups freely. */
  lemma AppendAssoc(a: string, b: string, c: string)
    ensures (a + b) + c == a + (b + c)
  {
  }

  /** `s.startsWith(prefix)`. */
  predicate StartsWith(s: string, prefix: string) {
    prefix <= s
  }
}
