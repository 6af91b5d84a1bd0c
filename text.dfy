/**
 * The handful of Python `str` operations the two programs rely on, with the
 * semantics CPython gives them: `startswith`, `endswith`, the `in` substring
 * test, `split(sep)` with a one-character separator, `split()` with no
 * argument, `strip()` and `sep.join(...)`.
 */
module Text {

  /** Python's `str.isspace()` for one character (the Unicode White_Space set
      plus the four ASCII separators that CPython also treats as whitespace). */
  predicate IsSpace(c: char) {
    c == ' ' || c == '\t' || c == '\n' || c == '\r'
    || (0x0B <= c as int <= 0x0C) || (0x1C <= c as int <= 0x1F)
    || c as int == 0x85 || c as int == 0xA0 || c as int == 0x1680
    || (0x2000 <= c as int <= 0x200A) || c as int == 0x2028 || c as int == 0x2029
    || c as int == 0x202F || c as int == 0x205F || c as int == 0x3000
  }

  predicate IsDigit(c: char) { '0' <= c <= '9' }

  predicate AllDigits(s: string) { forall i :: 0 <= i < |s| ==> IsDigit(s[i]) }

  predicate NoSpace(s: string) { forall i :: 0 <= i < |s| ==> !IsSpace(s[i]) }

  predicate StartsWith(s: string, prefix: string) {
    |prefix| <= |s| && s[..|prefix|] == prefix
  }

  predicate EndsWith(s: string, suffix: string) {
    |suffix| <= |s| && s[|s| - |suffix|..] == suffix
  }

  /** Python's `sub in s`. */
  predicate HasInfix(s: string, sub: string) {
    StartsWith(s, sub) || (s != [] && HasInfix(s[1..], sub))
  }

  /** Python's `s.split(sep)`: cut at every occurrence of `sep`, keeping empty
      pieces; `"".split(sep)` is `[""]`. */
  function Split(s: string, sep: char): (parts: seq<string>)
    ensures |parts| >= 1
    ensures forall i :: 0 <= i < |parts| ==> sep !in parts[i]
  {
    if s == [] then [[]]
    else
      var rest := Split(s[1..], sep);
      if s[0] == sep then [[]] + rest
      else [[s[0]] + rest[0]] + rest[1..]
  }

  /** Python's `sep.join(parts)`. */
  function Join(parts: seq<string>, sep: char): string {
    if |parts| == 0 then []
    else if |parts| == 1 then parts[0]
    else parts[0] + [sep] + Join(parts[1..], sep)
  }

  /** Joining the pieces of a split gives back the text. */
  lemma {:induction false} JoinSplit(s: string, sep: char)
    ensures Join(Split(s, sep), sep) == s
  {
    if s != [] {
      var rest := Split(s[1..], sep);
      JoinSplit(s[1..], sep);
      if s[0] == sep {
        assert Split(s, sep) == [[]] + rest;
        assert Join(Split(s, sep), sep) == [] + [sep] + Join(rest, sep);
      } else if |rest| == 1 {
        assert Split(s, sep) == [[s[0]] + rest[0]];
      } else {
        assert Split(s, sep) == [[s[0]] + rest[0]] + rest[1..];
        assert Join(rest, sep) == rest[0] + [sep] + Join(rest[1..], sep);
      }
    }
  }

  /** Splitting a join gives back the pieces when no piece holds the separator. */
  lemma {:induction false} SplitJoin(parts: seq<string>, sep: char)
    requires |parts| >= 1
    requires forall i :: 0 <= i < |parts| ==> sep !in parts[i]
    ensures Split(Join(parts, sep), sep) == parts
  {
    if |parts| == 1 {
      SplitPlain(parts[0], sep);
    } else {
      SplitJoin(parts[1..], sep);
      SplitAfterPiece(parts[0], Join(parts[1..], sep), sep);
      assert Join(parts, sep) == parts[0] + [sep] + Join(parts[1..], sep);
      assert parts == [parts[0]] + parts[1..];
    }
  }

  /** A text without the separator is one piece. */
  lemma {:induction false} SplitPlain(s: string, sep: char)
    requires sep !in s
    ensures Split(s, sep) == [s]
  {
    if s != [] {
      SplitPlain(s[1..], sep);
      assert [s[0]] + s[1..] == s;
    }
  }

  /** A piece without the separator, then the separator, splits off in front. */
  lemma {:induction false} SplitAfterPiece(piece: string, rest: string, sep: char)
    requires sep !in piece
    ensures Split(piece + [sep] + rest, sep) == [piece] + Split(rest, sep)
  {
    var s := piece + [sep] + rest;
    if piece == [] {
      assert s[1..] == rest;
    } else {
      assert s[1..] == piece[1..] + [sep] + rest;
      SplitAfterPiece(piece[1..], rest, sep);
      assert [piece[0]] + piece[1..] == piece;
    }
  }

  /** A character that is neither the separator nor in any piece is not in
      the join. */
  lemma {:induction false} JoinAvoids(parts: seq<string>, sep: char, c: char)
    requires c != sep
    requires forall i :: 0 <= i < |parts| ==> c !in parts[i]
    ensures c !in Join(parts, sep)
  {
    if |parts| > 1 {
      JoinAvoids(parts[1..], sep, c);
      assert parts[1..][0] == parts[1];
      assert forall i :: 0 <= i < |parts| - 1 ==> parts[1..][i] == parts[i + 1];
    }
  }

  /** The number of leading whitespace characters of `s`. */
  function SpaceRun(s: string): (n: nat)
    ensures n <= |s|
    ensures forall i :: 0 <= i < n ==> IsSpace(s[i])
    ensures n < |s| ==> !IsSpace(s[n])
  {
    if s == [] || !IsSpace(s[0]) then 0 else 1 + SpaceRun(s[1..])
  }

  /** The number of leading non-whitespace characters of `s`. */
  function WordRun(s: string): (n: nat)
    ensures n <= |s|
    ensures forall i :: 0 <= i < n ==> !IsSpace(s[i])
    ensures n < |s| ==> IsSpace(s[n])
  {
    if s == [] || IsSpace(s[0]) then 0 else 1 + WordRun(s[1..])
  }

  function TrimLeft(s: string): string { s[SpaceRun(s)..] }

  /** The number of trailing whitespace characters of `s`. */
  function TrailingSpace(s: string): (n: nat)
    ensures n <= |s|
    ensures forall i :: |s| - n <= i < |s| ==> IsSpace(s[i])
    ensures n < |s| ==> !IsSpace(s[|s| - n - 1])
  {
    if s == [] || !IsSpace(s[|s| - 1]) then 0 else 1 + TrailingSpace(s[..|s| - 1])
  }

  function TrimRight(s: string): string { s[..|s| - TrailingSpace(s)] }

  /** Python's `s.strip()`. */
  function Strip(s: string): string { TrimRight(TrimLeft(s)) }

  /** Python's `s.split()`: the maximal runs of non-whitespace, in order. */
  function Words(s: string): seq<string>
    decreases |s|
  {
    var t := TrimLeft(s);
    if t == [] then []
    else
      var n := WordRun(t);
      [t[..n]] + Words(t[n..])
  }

  /** Every word is non-empty and free of whitespace. */
  lemma {:induction false} WordsShape(s: string)
    ensures WordList(Words(s))
    decreases |s|
  {
    if SpaceRun(s) == |s| {
      WordsAllSpace(s);
    } else {
      var pre, w, tail := FirstWord(s);
      var rest := Words(tail);
      assert Words(s) == [w] + rest by {
        WordsFirst(pre, w, tail);
      }
      WordsShape(tail);
      forall i | 0 <= i < |Words(s)|
        ensures Words(s)[i] != [] && NoSpace(Words(s)[i])
      {
        if i > 0 {
          assert Words(s)[i] == rest[i - 1];
        }
      }
    }
  }

  /** Whitespace in front adds to the leading run. */
  lemma {:induction false} SpaceRunPrefix(sp: string, s: string)
    requires forall i :: 0 <= i < |sp| ==> IsSpace(sp[i])
    ensures SpaceRun(sp + s) == |sp| + SpaceRun(s)
    decreases |sp|
  {
    if sp == [] {
      assert sp + s == s;
    } else {
      assert (sp + s)[0] == sp[0];
      assert (sp + s)[1..] == sp[1..] + s;
      SpaceRunPrefix(sp[1..], s);
    }
  }

  /** A leading run that ends inside `a` is not changed by what follows. */
  lemma {:induction false} SpaceRunAppend(a: string, b: string)
    requires SpaceRun(a) < |a|
    ensures SpaceRun(a + b) == SpaceRun(a)
    decreases |a|
  {
    assert (a + b)[0] == a[0];
    if IsSpace(a[0]) {
      assert (a + b)[1..] == a[1..] + b;
      SpaceRunAppend(a[1..], b);
    }
  }

  /** A trailing run that starts inside `b` is not changed by what precedes. */
  lemma {:induction false} TrailingSpaceAppend(a: string, b: string)
    requires TrailingSpace(b) < |b|
    ensures TrailingSpace(a + b) == TrailingSpace(b)
    decreases |b|
  {
    var s := a + b;
    assert s[|s| - 1] == b[|b| - 1];
    if IsSpace(b[|b| - 1]) {
      assert s[..|s| - 1] == a + b[..|b| - 1];
      TrailingSpaceAppend(a, b[..|b| - 1]);
    }
  }

  /** A word run that ends at whitespace, or at the end of the text, is not
      changed by what follows. */
  lemma {:induction false} WordRunAppend(a: string, b: string)
    requires WordRun(a) < |a| || b == [] || IsSpace(b[0])
    ensures WordRun(a + b) == WordRun(a)
    decreases |a|
  {
    if a == [] {
      assert a + b == b;
    } else {
      assert (a + b)[0] == a[0];
      if !IsSpace(a[0]) {
        assert (a + b)[1..] == a[1..] + b;
        WordRunAppend(a[1..], b);
      }
    }
  }

  lemma {:induction false} WordRunAll(s: string)
    requires NoSpace(s)
    ensures WordRun(s) == |s|
    decreases |s|
  {
    if s != [] {
      WordRunAll(s[1..]);
    }
  }

  /** A word followed by whitespace, or by nothing, is the first word. */
  lemma WordsCons(w: string, rest: string)
    requires w != [] && NoSpace(w)
    requires rest == [] || IsSpace(rest[0])
    ensures Words(w + rest) == [w] + Words(rest)
  {
    var s := w + rest;
    assert s[0] == w[0];
    assert TrimLeft(s) == s;
    WordRunAll(w);
    WordRunAppend(w, rest);
    assert s[..|w|] == w && s[|w|..] == rest;
  }

  /** Leading whitespace does not change the words. */
  lemma WordsSpacePrefix(sp: string, s: string)
    requires forall i :: 0 <= i < |sp| ==> IsSpace(sp[i])
    ensures Words(sp + s) == Words(s)
  {
    SpaceRunPrefix(sp, s);
    assert TrimLeft(sp + s) == TrimLeft(s);
  }

  /** The words of a text are those of the text without its leading
      whitespace. */
  lemma WordsTrimLeft(s: string)
    ensures Words(TrimLeft(s)) == Words(s)
  {
    var k := SpaceRun(s);
    assert s == s[..k] + TrimLeft(s);
    WordsSpacePrefix(s[..k], TrimLeft(s));
  }

  /** A text of whitespace only has no words. */
  lemma WordsAllSpace(s: string)
    requires forall i :: 0 <= i < |s| ==> IsSpace(s[i])
    ensures Words(s) == []
  {
    SpaceRunPrefix(s, []);
    assert s + [] == s;
  }

  /** Whitespace, a word, then whitespace or nothing: the word comes first. */
  lemma WordsFirst(pre: string, w: string, tail: string)
    requires forall i :: 0 <= i < |pre| ==> IsSpace(pre[i])
    requires w != [] && NoSpace(w)
    requires tail == [] || IsSpace(tail[0])
    ensures Words(pre + w + tail) == [w] + Words(tail)
  {
    assert pre + w + tail == pre + (w + tail);
    WordsSpacePrefix(pre, w + tail);
    WordsCons(w, tail);
  }

  /** Trailing whitespace does not change the words. */
  lemma {:induction false} WordsSpaceSuffix(s: string, sp: string)
    requires forall i :: 0 <= i < |sp| ==> IsSpace(sp[i])
    ensures Words(s + sp) == Words(s)
    decreases |s|
  {
    if SpaceRun(s) == |s| {
      assert Words(s) == [] by {
        WordsAllSpace(s);
      }
      assert Words(s + sp) == [] by {
        assert forall i :: 0 <= i < |s + sp| ==> IsSpace((s + sp)[i]);
        WordsAllSpace(s + sp);
      }
    } else {
      var pre, w, tail := FirstWord(s);
      WordsSpaceSuffix(tail, sp);
      WordsSuffixStep(pre, w, tail, sp);
    }
  }

  /** A text that is not all whitespace: leading whitespace, a word, and
      the rest, which is empty or starts with whitespace. */
  lemma FirstWord(s: string) returns (pre: string, w: string, tail: string)
    requires SpaceRun(s) < |s|
    ensures s == pre + w + tail && |tail| < |s|
    ensures forall i :: 0 <= i < |pre| ==> IsSpace(pre[i])
    ensures w != [] && NoSpace(w)
    ensures tail == [] || IsSpace(tail[0])
  {
    var k := SpaceRun(s);
    pre := s[..k];
    var t := s[k..];
    var n := WordRun(t);
    w := t[..n];
    tail := t[n..];
    assert t[0] == s[k];
    assert s == pre + w + tail;
  }

  lemma WordsSuffixStep(pre: string, w: string, tail: string, sp: string)
    requires forall i :: 0 <= i < |pre| ==> IsSpace(pre[i])
    requires w != [] && NoSpace(w)
    requires tail == [] || IsSpace(tail[0])
    requires forall i :: 0 <= i < |sp| ==> IsSpace(sp[i])
    requires Words(tail + sp) == Words(tail)
    ensures Words(pre + w + tail + sp) == Words(pre + w + tail)
  {
    assert pre + w + tail + sp == pre + w + (tail + sp);
    assert tail + sp == [] || IsSpace((tail + sp)[0]);
    WordsFirst(pre, w, tail);
    WordsFirst(pre, w, tail + sp);
  }

  /** The words of a text are those of the text without its trailing
      whitespace. */
  lemma WordsTrimRight(s: string)
    ensures Words(TrimRight(s)) == Words(s)
  {
    var m := TrailingSpace(s);
    assert s == TrimRight(s) + s[|s| - m..];
    WordsSpaceSuffix(TrimRight(s), s[|s| - m..]);
  }

  /** `s.split()` ignores what `s.strip()` removes. */
  lemma WordsStrip(s: string)
    ensures Words(Strip(s)) == Words(s)
  {
    WordsTrimLeft(s);
    WordsTrimRight(TrimLeft(s));
  }

  /** Non-empty words free of whitespace. */
  predicate WordList(ws: seq<string>) {
    forall i :: 0 <= i < |ws| ==> ws[i] != [] && NoSpace(ws[i])
  }

  lemma WordListTail(ws: seq<string>)
    requires WordList(ws) && ws != []
    ensures WordList(ws[1..]) && ws[0] != [] && NoSpace(ws[0])
  {
    forall i | 0 <= i < |ws[1..]|
      ensures ws[1..][i] != [] && NoSpace(ws[1..][i])
    {
      assert ws[1..][i] == ws[i + 1];
    }
  }

  /** Words joined by whitespace split back into those words. */
  lemma {:induction false} WordsJoin(ws: seq<string>, c: char)
    requires IsSpace(c) && WordList(ws)
    ensures Words(Join(ws, c)) == ws
    decreases |ws|
  {
    if ws == [] {
      assert TrimLeft([]) == [];
    } else if |ws| == 1 {
      WordListTail(ws);
      WordsJoinSingle(ws[0], c);
    } else {
      WordListTail(ws);
      WordsJoin(ws[1..], c);
      WordsJoinStep(ws, c);
    }
  }

  lemma WordsJoinSingle(w: string, c: char)
    requires w != [] && NoSpace(w)
    ensures Words(Join([w], c)) == [w]
  {
    assert TrimLeft([]) == [];
    assert w + [] == w;
    WordsCons(w, []);
  }

  lemma WordsJoinStep(ws: seq<string>, c: char)
    requires IsSpace(c) && |ws| >= 2 && ws[0] != [] && NoSpace(ws[0])
    requires Words(Join(ws[1..], c)) == ws[1..]
    ensures Words(Join(ws, c)) == ws
  {
    assert ws == [ws[0]] + ws[1..];
    WordsJoinCons(ws[0], ws[1..], c);
  }

  lemma WordsJoinCons(w: string, rest: seq<string>, c: char)
    requires IsSpace(c) && w != [] && NoSpace(w) && rest != []
    ensures Words(Join([w] + rest, c)) == [w] + Words(Join(rest, c))
  {
    var j := Join(rest, c);
    assert ([w] + rest)[1..] == rest;
    assert Join([w] + rest, c) == w + ([c] + j);
    WordsCons(w, [c] + j);
    WordsSpacePrefix([c], j);
  }
}
