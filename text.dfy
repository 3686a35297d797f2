/** The pieces of the JavaScript string library that the gateway's framing
    loop relies on: `startsWith`, `lastIndexOf('\n\n')`, `split('\n')`,
    `trim()` and joining the parts a generator yields. Strings are sequences
    of characters; the difference between UTF-16 code units and code points
    is not modelled. */
module Text {

  /** The parts concatenated in order. */
  function Concat(parts: seq<string>): string
  {
    if parts == [] then "" else parts[0] + Concat(parts[1..])
  }

  lemma {:induction false} ConcatAppend(a: seq<string>, b: seq<string>)
    ensures Concat(a + b) == Concat(a) + Concat(b)
  {
    if a == [] {
      assert a + b == b;
    } else {
      assert (a + b)[1..] == a[1..] + b;
      ConcatAppend(a[1..], b);
    }
  }

  predicate StartsWith(s: string, prefix: string)
  {
    |prefix| <= |s| && s[..|prefix|] == prefix
  }

  predicate EndsWith(s: string, suffix: string)
  {
    |suffix| <= |s| && s[|s| - |suffix|..] == suffix
  }

  /** A blank line, the SSE event delimiter "\n\n", starts at index `i`. */
  predicate DelimiterAt(s: string, i: int)
  {
    0 <= i && i + 1 < |s| && s[i] == '\n' && s[i + 1] == '\n'
  }

  predicate ContainsDelimiter(s: string)
  {
    exists i :: 0 <= i < |s| && DelimiterAt(s, i)
  }

  /** `s.lastIndexOf('\n\n')`: the start of the last delimiter, or -1. */
  function LastDelimiter(s: string): (r: int)
    ensures -1 <= r
    ensures r == -1 <==> !ContainsDelimiter(s)
    ensures r != -1 ==> DelimiterAt(s, r)
    ensures forall i :: r < i ==> !DelimiterAt(s, i)
  {
    if |s| < 2 then -1
    else if s[|s| - 2] == '\n' && s[|s| - 1] == '\n' then
      assert DelimiterAt(s, |s| - 2);
      |s| - 2
    else
      var p := s[..|s| - 1];
      var r := LastDelimiter(p);
      DropLastKeepsDelimiters(s);
      r
  }

  /** When the last two characters are not a delimiter, dropping the last
      character keeps exactly the same delimiters. */
  lemma DropLastKeepsDelimiters(s: string)
    requires |s| >= 2 && !(s[|s| - 2] == '\n' && s[|s| - 1] == '\n')
    ensures forall i :: DelimiterAt(s, i) <==> DelimiterAt(s[..|s| - 1], i)
    ensures ContainsDelimiter(s) <==> ContainsDelimiter(s[..|s| - 1])
  {
    var p := s[..|s| - 1];
    forall i
      ensures DelimiterAt(s, i) <==> DelimiterAt(p, i)
    {
      if 0 <= i && i + 1 < |p| {
        assert p[i] == s[i] && p[i + 1] == s[i + 1];
      }
    }
    if ContainsDelimiter(s) {
      var i :| 0 <= i < |s| && DelimiterAt(s, i);
      assert 0 <= i < |p| && DelimiterAt(p, i);
    }
    if ContainsDelimiter(p) {
      var i :| 0 <= i < |p| && DelimiterAt(p, i);
      assert 0 <= i < |s| && DelimiterAt(s, i);
    }
  }

  /** Cutting at the last delimiter loses nothing, and what is left after it
      holds no further delimiter. */
  lemma CutAtLastDelimiter(s: string)
    requires LastDelimiter(s) != -1
    ensures var b := LastDelimiter(s);
      s[..b] + "\n\n" + s[b + 2..] == s && !ContainsDelimiter(s[b + 2..])
  {
    var b := LastDelimiter(s);
    var tail := s[b + 2..];
    assert s[..b] + "\n\n" + tail == s by {
      assert s[b..b + 2] == "\n\n";
      assert s == s[..b] + s[b..b + 2] + tail;
    }
    forall i | DelimiterAt(tail, i)
      ensures false
    {
      assert DelimiterAt(s, b + 2 + i);
    }
  }

  /** `s.split('\n')`: the pieces between line feeds, in order; the empty
      string splits into one empty piece. */
  function Split(s: string): (lines: seq<string>)
    ensures |lines| >= 1
  {
    if s == [] then [""]
    else
      var rest := Split(s[1..]);
      if s[0] == '\n' then [""] + rest else [[s[0]] + rest[0]] + rest[1..]
  }

  /** `lines.join('\n')`, the inverse of Split. */
  function JoinLines(lines: seq<string>): string
    requires |lines| >= 1
  {
    if |lines| == 1 then lines[0] else lines[0] + "\n" + JoinLines(lines[1..])
  }

  lemma JoinPrepend(a: string, rest: seq<string>)
    requires |rest| >= 1
    ensures JoinLines([a] + rest) == a + "\n" + JoinLines(rest)
  {
    assert ([a] + rest)[1..] == rest;
  }

  lemma JoinExtendFirst(c: char, rest: seq<string>)
    requires |rest| >= 1
    ensures JoinLines([[c] + rest[0]] + rest[1..]) == [c] + JoinLines(rest)
  {
    var lines := [[c] + rest[0]] + rest[1..];
    if |rest| > 1 {
      assert lines[1..] == rest[1..];
    }
  }

  /** Split loses nothing: joining the pieces gives the text back. */
  lemma {:induction false} SplitJoin(s: string)
    ensures JoinLines(Split(s)) == s
  {
    if s != [] {
      SplitJoin(s[1..]);
      var rest := Split(s[1..]);
      if s[0] == '\n' {
        JoinPrepend("", rest);
      } else {
        JoinExtendFirst(s[0], rest);
      }
      assert s == [s[0]] + s[1..];
    }
  }

  /** No piece of a split holds a line feed. */
  lemma {:induction false} SplitPieces(s: string)
    ensures forall k :: 0 <= k < |Split(s)| ==> '\n' !in Split(s)[k]
  {
    if s != [] {
      SplitPieces(s[1..]);
      var rest := Split(s[1..]);
      if s[0] != '\n' {
        var first := [s[0]] + rest[0];
        assert Split(s) == [first] + rest[1..];
        assert '\n' !in first;
        assert forall k :: 1 <= k < |Split(s)| ==> Split(s)[k] == rest[k];
      } else {
        assert forall k :: 1 <= k < |Split(s)| ==> Split(s)[k] == rest[k - 1];
      }
    }
  }

  /** A line feed separates the pieces of what precedes it from the pieces
      of what follows it. */
  lemma {:induction false} SplitAtLineFeed(x: string, y: string)
    ensures Split(x + "\n" + y) == Split(x) + Split(y)
  {
    if x == [] {
      assert x + "\n" + y == "\n" + y;
      assert ("\n" + y)[1..] == y;
    } else {
      assert (x + "\n" + y)[0] == x[0];
      assert (x + "\n" + y)[1..] == x[1..] + "\n" + y;
      SplitAtLineFeed(x[1..], y);
    }
  }

  /** The characters `String.prototype.trim` removes: the ECMAScript
      WhiteSpace code points (TAB, VT, FF, ZWNBSP and the Unicode space
      separators) and the LineTerminator code points (LF, CR, LS, PS). */
  const JsSpaces: set<char> := {
    '\t', '\U{000B}', '\U{000C}', ' ', '\U{00A0}', '\U{1680}',
    '\U{2000}', '\U{2001}', '\U{2002}', '\U{2003}', '\U{2004}', '\U{2005}',
    '\U{2006}', '\U{2007}', '\U{2008}', '\U{2009}', '\U{200A}',
    '\U{202F}', '\U{205F}', '\U{3000}', '\U{FEFF}',
    '\n', '\r', '\U{2028}', '\U{2029}'}

  predicate IsJsSpace(c: char)
  {
    c in JsSpaces
  }

  predicate AllSpace(s: string)
  {
    forall i :: 0 <= i < |s| ==> IsJsSpace(s[i])
  }

  /** The text after its leading spaces. */
  function TrimStart(s: string): string
  {
    if s != [] && IsJsSpace(s[0]) then TrimStart(s[1..]) else s
  }

  /** The text before its trailing spaces. */
  function TrimEnd(s: string): string
  {
    if s != [] && IsJsSpace(s[|s| - 1]) then TrimEnd(s[..|s| - 1]) else s
  }

  /** `s.trim()`. */
  function Trim(s: string): string
  {
    TrimEnd(TrimStart(s))
  }

  /** TrimStart drops a prefix of spaces and stops at the first other
      character. */
  lemma {:induction false} TrimStartShape(s: string)
    ensures EndsWith(s, TrimStart(s)) && AllSpace(s[..|s| - |TrimStart(s)|])
    ensures TrimStart(s) == [] || !IsJsSpace(TrimStart(s)[0])
  {
    if s != [] && IsJsSpace(s[0]) {
      var t := s[1..];
      TrimStartShape(t);
      var n := |s| - |TrimStart(s)|;
      assert s[|s| - |TrimStart(s)|..] == t[|t| - |TrimStart(t)|..];
      assert forall i :: 1 <= i < n ==> s[..n][i] == t[..n - 1][i - 1];
    }
  }

  /** TrimEnd drops a suffix of spaces and stops at the last other
      character. */
  lemma {:induction false} TrimEndShape(s: string)
    ensures StartsWith(s, TrimEnd(s)) && AllSpace(s[|TrimEnd(s)|..])
    ensures TrimEnd(s) == [] || !IsJsSpace(TrimEnd(s)[|TrimEnd(s)| - 1])
  {
    if s != [] && IsJsSpace(s[|s| - 1]) {
      var p := s[..|s| - 1];
      TrimEndShape(p);
      var n := |TrimEnd(s)|;
      assert s[..n] == p[..n];
      assert s[n..] == p[n..] + [s[|s| - 1]];
    }
  }

  /** Trim removes only spaces, from both ends, and leaves a text that
      neither starts nor ends with one. */
  lemma TrimShape(s: string)
    ensures exists i ::
      0 <= i <= i + |Trim(s)| <= |s| && s[i..i + |Trim(s)|] == Trim(s) &&
      AllSpace(s[..i]) && AllSpace(s[i + |Trim(s)|..])
    ensures Trim(s) == [] || (!IsJsSpace(Trim(s)[0]) && !IsJsSpace(Trim(s)[|Trim(s)| - 1]))
  {
    var t := TrimStart(s);
    TrimStartShape(s);
    TrimEndShape(t);
    var i := |s| - |t|;
    var r := Trim(s);
    assert s[i..] == t;
    assert s[i..i + |r|] == t[..|r|];
    assert s[i + |r|..] == t[|r|..];
    if r != [] {
      assert r[0] == t[0];
    }
  }

  lemma {:induction false} TrimStartPadded(pre: string, t: string)
    requires AllSpace(pre)
    requires t == [] || !IsJsSpace(t[0])
    ensures TrimStart(pre + t) == t
  {
    if pre == [] {
      assert pre + t == t;
    } else {
      assert (pre + t)[0] == pre[0];
      assert (pre + t)[1..] == pre[1..] + t;
      TrimStartPadded(pre[1..], t);
    }
  }

  lemma {:induction false} TrimEndPadded(t: string, post: string)
    requires AllSpace(post)
    requires t == [] || !IsJsSpace(t[|t| - 1])
    ensures TrimEnd(t + post) == t
  {
    if post == [] {
      assert t + post == t;
    } else {
      var p := post[..|post| - 1];
      assert (t + post)[|t + post| - 1] == post[|post| - 1];
      assert (t + post)[..|t + post| - 1] == t + p;
      TrimEndPadded(t, p);
    }
  }

  /** Trim removes exactly the surrounding spaces: a word with non-space
      ends, padded by spaces on either side, trims to itself. */
  lemma TrimPadded(pre: string, w: string, post: string)
    requires AllSpace(pre) && AllSpace(post)
    requires w != [] && !IsJsSpace(w[0]) && !IsJsSpace(w[|w| - 1])
    ensures Trim(pre + w + post) == w
  {
    assert pre + w + post == pre + (w + post);
    TrimStartPadded(pre, w + post);
    TrimEndPadded(w, post);
  }
}
