/** The pieces of Python's `str` behaviour the core relies on: whitespace and
    word-character classes, `strip`, `lower`, `split`, `startswith`, the `in`
    substring test, `int()` and the validity of a `float()` literal, and the
    `{n:0Wd}` integer format. */
module Text {
  import opened Wrappers


  // ---------------------------------------------------------------------------
  // Character classes
  // ---------------------------------------------------------------------------

  /** Python's `str.isspace()`, which is also what `\s` and `strip()` use. */
  predicate IsSpace(c: char) {
    || c == ' '
    || ('\t' <= c <= '\r')             // \t \n \v \f \r
    || ('\U{1C}' <= c <= '\U{1F}')     // file, group, record and unit separators
    || c == '\U{85}' || c == '\U{A0}' || c == '\U{1680}'
    || ('\U{2000}' <= c <= '\U{200A}')
    || c == '\U{2028}' || c == '\U{2029}' || c == '\U{202F}' || c == '\U{205F}' || c == '\U{3000}'
  }

  predicate IsDigit(c: char) {
    '0' <= c <= '9'
  }

  predicate IsAsciiLetter(c: char) {
    ('a' <= c <= 'z') || ('A' <= c <= 'Z')
  }

  /** The regular-expression class `\w`, restricted to ASCII. */
  predicate IsWordChar(c: char) {
    IsAsciiLetter(c) || IsDigit(c) || c == '_'
  }

  // ---------------------------------------------------------------------------
  // lower()
  // ---------------------------------------------------------------------------

  function LowerChar(c: char): (r: char)
    ensures 'A' <= c <= 'Z' ==> 'a' <= r <= 'z'
    ensures !('A' <= c <= 'Z') ==> r == c
  {
    if 'A' <= c <= 'Z' then (c as int + 32) as char else c
  }

  /** `str.lower()` on ASCII letters; every other character is kept. */
  function Lower(s: string): (r: string)
    ensures |r| == |s|
    ensures forall i :: 0 <= i < |s| ==> r[i] == LowerChar(s[i])
  {
    seq(|s|, i requires 0 <= i < |s| => LowerChar(s[i]))
  }

  lemma LowerIdempotent(s: string)
    ensures Lower(Lower(s)) == Lower(s)
  {
    assert forall i :: 0 <= i < |s| ==> LowerChar(LowerChar(s[i])) == LowerChar(s[i]);
  }

  // ---------------------------------------------------------------------------
  // strip()
  // ---------------------------------------------------------------------------

  /** How many characters at the front of `s` satisfy `drop`. */
  function LeadingCount(s: string, drop: char -> bool): (n: nat)
    ensures n <= |s|
    ensures forall i :: 0 <= i < n ==> drop(s[i])
    ensures n < |s| ==> !drop(s[n])
  {
    if s != [] && drop(s[0]) then 1 + LeadingCount(s[1..], drop) else 0
  }

  /** How many characters at the back of `s` satisfy `drop`. */
  function TrailingCount(s: string, drop: char -> bool): (n: nat)
    ensures n <= |s|
    ensures forall i :: |s| - n <= i < |s| ==> drop(s[i])
    ensures n < |s| ==> !drop(s[|s| - 1 - n])
  {
    if s != [] && drop(s[|s| - 1]) then 1 + TrailingCount(s[..|s| - 1], drop) else 0
  }

  /** `s.strip(chars)`: removes every leading and trailing character that
      satisfies `drop`. */
  function Trim(s: string, drop: char -> bool): (r: string)
    ensures |r| <= |s|
    ensures r != [] ==> !drop(r[0]) && !drop(r[|r| - 1])
  {
    var t := s[LeadingCount(s, drop)..];
    t[..|t| - TrailingCount(t, drop)]
  }

  /** The result of `Trim` is a contiguous piece of its input. */
  lemma TrimIsInfix(s: string, drop: char -> bool)
    ensures exists i, j :: 0 <= i <= j <= |s| && Trim(s, drop) == s[i..j]
  {
    var i := LeadingCount(s, drop);
    var t := s[i..];
    var j := i + |t| - TrailingCount(t, drop);
    assert Trim(s, drop) == s[i..j];
  }

  /** Python's `str.strip()` with no argument. */
  function Strip(s: string): (r: string)
    ensures |r| <= |s|
    ensures r != [] ==> !IsSpace(r[0]) && !IsSpace(r[|r| - 1])
  {
    Trim(s, IsSpace)
  }

  /** A character absent from `s` is absent from `Trim(s, drop)`. */
  lemma TrimKeepsAbsence(s: string, drop: char -> bool, c: char)
    requires c !in s
    ensures c !in Trim(s, drop)
  {
    TrimIsInfix(s, drop);
    var i, j :| 0 <= i <= j <= |s| && Trim(s, drop) == s[i..j];
    assert forall k :: 0 <= k < j - i ==> s[i..j][k] == s[i + k];
  }

  /** A string without surrounding whitespace is its own strip. */
  lemma StripNoop(s: string)
    requires s == [] || (!IsSpace(s[0]) && !IsSpace(s[|s| - 1]))
    ensures Strip(s) == s
  {
  }

  /** Stripping text padded with whitespace on both sides gives the text
      back, when the text itself neither starts nor ends with whitespace. */
  lemma StripPadded(left: string, x: string, right: string)
    requires forall k :: 0 <= k < |left| ==> IsSpace(left[k])
    requires forall k :: 0 <= k < |right| ==> IsSpace(right[k])
    requires x != [] && !IsSpace(x[0]) && !IsSpace(x[|x| - 1])
    ensures Strip(left + x + right) == x
  {
    var s := left + x + right;
    assert forall k :: 0 <= k < |left| ==> s[k] == left[k];
    assert s[|left|] == x[0];
    var n := LeadingCount(s, IsSpace);
    assert n == |left|;
    var t := s[n..];
    assert t == x + right;
    assert forall k :: 0 <= k < |right| ==> t[|x| + k] == right[k];
    assert t[|x| - 1] == x[|x| - 1];
    var m := TrailingCount(t, IsSpace);
    assert m == |right|;
    assert t[..|t| - m] == x;
  }

  /** One space on each side changes nothing about what `strip()` keeps. */
  lemma StripSpaced(x: string)
    ensures Strip(" " + x + " ") == Strip(x)
  {
    var s := " " + x + " ";
    var left, right := StripSplit(x);
    var y := Strip(x);
    if y == [] {
      assert forall k :: 0 <= k < |s| ==> IsSpace(s[k]) by {
        assert s == " " + left + right + " ";
        AllSpaceConcat(" " + left, right + " ");
        assert " " + left + (right + " ") == s;
      }
      assert LeadingCount(s, IsSpace) == |s|;
    } else {
      assert s == (" " + left) + y + (right + " ");
      AllSpaceConcat(" ", left);
      AllSpaceConcat(right, " ");
      StripPadded(" " + left, y, right + " ");
    }
  }

  /** A text is the whitespace `strip()` removes on the left, what it keeps,
      and the whitespace it removes on the right. */
  lemma StripSplit(x: string) returns (left: string, right: string)
    ensures x == left + Strip(x) + right
    ensures forall k :: 0 <= k < |left| ==> IsSpace(left[k])
    ensures forall k :: 0 <= k < |right| ==> IsSpace(right[k])
  {
    var n := LeadingCount(x, IsSpace);
    var t := x[n..];
    var m := TrailingCount(t, IsSpace);
    left := LeadingSpaces(x);
    right := TrailingSpaces(t);
    var y := t[..|t| - m];
    assert Strip(x) == y;
    SliceJoin(x, n);
    SliceJoin(t, |t| - m);
    AppendAssociates(left, y, right);
  }

  lemma SliceJoin(s: string, i: nat)
    requires i <= |s|
    ensures s == s[..i] + s[i..]
  {
  }

  lemma AppendAssociates<T>(a: seq<T>, b: seq<T>, c: seq<T>)
    ensures a + b + c == a + (b + c)
  {
  }

  lemma LeadingSpaces(x: string) returns (left: string)
    ensures left == x[..LeadingCount(x, IsSpace)]
    ensures forall k :: 0 <= k < |left| ==> IsSpace(left[k])
  {
    left := x[..LeadingCount(x, IsSpace)];
    forall k | 0 <= k < |left|
      ensures IsSpace(left[k])
    {
      assert left[k] == x[k];
    }
  }

  lemma TrailingSpaces(t: string) returns (right: string)
    ensures right == t[|t| - TrailingCount(t, IsSpace)..]
    ensures forall k :: 0 <= k < |right| ==> IsSpace(right[k])
  {
    var m := TrailingCount(t, IsSpace);
    right := t[|t| - m..];
    forall k | 0 <= k < |right|
      ensures IsSpace(right[k])
    {
      assert right[k] == t[|t| - m + k];
    }
  }

  lemma AllSpaceConcat(a: string, b: string)
    requires forall k :: 0 <= k < |a| ==> IsSpace(a[k])
    requires forall k :: 0 <= k < |b| ==> IsSpace(b[k])
    ensures forall k :: 0 <= k < |a + b| ==> IsSpace((a + b)[k])
  {
  }

  // ---------------------------------------------------------------------------
  // startswith(), endswith(), `in`
  // ---------------------------------------------------------------------------

  predicate StartsWith(s: string, prefix: string) {
    |prefix| <= |s| && s[..|prefix|] == prefix
  }

  predicate EndsWith(s: string, suffix: string) {
    |suffix| <= |s| && s[|s| - |suffix|..] == suffix
  }

  /** Python's `t in s` for strings: `t` occurs somewhere in `s`. */
  predicate Contains(s: string, t: string)
    decreases |s|
  {
    StartsWith(s, t) || (s != [] && Contains(s[1..], t))
  }

  lemma {:induction false} ContainsAt(s: string, t: string, i: nat)
    requires i + |t| <= |s| && s[i..i + |t|] == t
    ensures Contains(s, t)
    decreases i
  {
    if i > 0 {
      assert s[1..][i - 1..i - 1 + |t|] == t;
      ContainsAt(s[1..], t, i - 1);
    }
  }

  /** A text that contains `t` still contains it after anything is appended. */
  lemma {:induction false} ContainsAppend(s: string, t: string, more: string)
    requires Contains(s, t)
    ensures Contains(s + more, t)
    decreases |s|
  {
    if StartsWith(s, t) {
      assert (s + more)[..|t|] == s[..|t|];
    } else {
      assert (s + more)[1..] == s[1..] + more;
      ContainsAppend(s[1..], t, more);
    }
  }

  // ---------------------------------------------------------------------------
  // split() and joining
  // ---------------------------------------------------------------------------

  /** Index of the first `c` in `s`, or `|s|` when there is none. */
  function IndexOf(s: string, c: char): (i: nat)
    ensures i <= |s|
    ensures i < |s| ==> s[i] == c
    ensures forall k :: 0 <= k < i ==> s[k] != c
  {
    if s == [] then 0 else if s[0] == c then 0 else 1 + IndexOf(s[1..], c)
  }

  /** Python's `s.split(sep)` for a one-character separator: the pieces
      between separators, so `k` separators give `k + 1` pieces. */
  function Split(s: string, sep: char): (pieces: seq<string>)
    ensures |pieces| >= 1
    ensures forall k :: 0 <= k < |pieces| ==> sep !in pieces[k]
    decreases |s|
  {
    var i := IndexOf(s, sep);
    if i == |s| then [s] else [s[..i]] + Split(s[i + 1..], sep)
  }

  /** Concatenation of a sequence of strings (`"".join(parts)`). */
  function Concat(parts: seq<string>): string {
    if parts == [] then [] else parts[0] + Concat(parts[1..])
  }

  lemma ConcatAppend(a: seq<string>, b: seq<string>)
    ensures Concat(a + b) == Concat(a) + Concat(b)
  {
    if a == [] {
      assert a + b == b;
    } else {
      assert (a + b)[1..] == a[1..] + b;
      ConcatAppend(a[1..], b);
    }
  }

  /** Joining the pieces with the separator gives the text back. */
  function JoinWith(pieces: seq<string>, sep: char): string
    requires |pieces| >= 1
  {
    if |pieces| == 1 then pieces[0] else pieces[0] + [sep] + JoinWith(pieces[1..], sep)
  }

  lemma {:induction false} SplitJoin(s: string, sep: char)
    ensures JoinWith(Split(s, sep), sep) == s
    decreases |s|
  {
    var i := IndexOf(s, sep);
    if i < |s| {
      SplitJoin(s[i + 1..], sep);
      assert s == s[..i] + [sep] + s[i + 1..];
    }
  }

  /** Joining pieces that do not contain the separator and splitting again
      gives the pieces back. */
  lemma {:induction false} JoinSplit(pieces: seq<string>, sep: char)
    requires |pieces| >= 1 && forall k :: 0 <= k < |pieces| ==> sep !in pieces[k]
    ensures Split(JoinWith(pieces, sep), sep) == pieces
    decreases |pieces|
  {
    var s := JoinWith(pieces, sep);
    var i := IndexOf(s, sep);
    if |pieces| == 1 {
      assert i == |s|;
    } else {
      var p := pieces[0];
      assert s == p + [sep] + JoinWith(pieces[1..], sep);
      assert s[|p|] == sep;
      assert i == |p| by {
        assert forall k :: 0 <= k < |p| ==> s[k] == p[k];
      }
      assert s[..i] == p;
      assert s[i + 1..] == JoinWith(pieces[1..], sep);
      JoinSplit(pieces[1..], sep);
    }
  }

  /** A character that is neither the separator nor in any piece is not in
      their join. */
  lemma {:induction false} JoinWithout(pieces: seq<string>, sep: char, c: char)
    requires |pieces| >= 1 && c != sep
    requires forall k :: 0 <= k < |pieces| ==> c !in pieces[k]
    ensures c !in JoinWith(pieces, sep)
    decreases |pieces|
  {
    if |pieces| > 1 {
      JoinWithout(pieces[1..], sep, c);
      assert c !in pieces[0];
    }
  }

  /** Joining at least three pieces, the first and the last empty, starts and
      ends with the separator. */
  lemma JoinWithEnds(pieces: seq<string>, sep: char)
    requires |pieces| >= 3 && pieces[0] == [] && pieces[|pieces| - 1] == []
    ensures var s := JoinWith(pieces, sep); |s| >= 2 && s[0] == sep && s[|s| - 1] == sep
  {
    var s := JoinWith(pieces, sep);
    var rest := JoinWith(pieces[1..], sep);
    assert s == [sep] + rest;
    JoinLast(pieces[1..], sep);
    assert |rest| >= 1;
    JoinLast(pieces, sep);
  }

  lemma {:induction false} JoinLast(pieces: seq<string>, sep: char)
    requires |pieces| >= 2
    ensures JoinWith(pieces, sep) == JoinWith(pieces[..|pieces| - 1], sep) + [sep] + pieces[|pieces| - 1]
    decreases |pieces|
  {
    if |pieces| > 2 {
      JoinLast(pieces[1..], sep);
      assert pieces[1..][..|pieces| - 2] == pieces[..|pieces| - 1][1..];
    } else {
      assert pieces[..1] == [pieces[0]];
    }
  }

  /** Joining eight pieces, written out. */
  lemma JoinEight(a: string, b: string, c: string, d: string, e: string, f: string, g: string, h: string, sep: char)
    ensures JoinWith([a, b, c, d, e, f, g, h], sep)
      == a + [sep] + b + [sep] + c + [sep] + d + [sep] + e + [sep] + f + [sep] + g + [sep] + h
  {
    var s := [sep];
    var j7 := JoinWith([h], sep);
    var j6 := JoinWith([g, h], sep);
    assert [g, h][1..] == [h];
    assert j6 == g + s + h;
    var j5 := JoinWith([f, g, h], sep);
    assert [f, g, h][1..] == [g, h];
    assert j5 == f + s + j6;
    var j4 := JoinWith([e, f, g, h], sep);
    assert [e, f, g, h][1..] == [f, g, h];
    assert j4 == e + s + j5;
    var j3 := JoinWith([d, e, f, g, h], sep);
    assert [d, e, f, g, h][1..] == [e, f, g, h];
    assert j3 == d + s + j4;
    var j2 := JoinWith([c, d, e, f, g, h], sep);
    assert [c, d, e, f, g, h][1..] == [d, e, f, g, h];
    assert j2 == c + s + j3;
    var j1 := JoinWith([b, c, d, e, f, g, h], sep);
    assert [b, c, d, e, f, g, h][1..] == [c, d, e, f, g, h];
    assert j1 == b + s + j2;
    assert [a, b, c, d, e, f, g, h][1..] == [b, c, d, e, f, g, h];
    assert JoinWith([a, b, c, d, e, f, g, h], sep) == a + s + j1;
  }

  /** A first piece without the separator splits off as the first piece. */
  lemma SplitFirst(a: string, rest: string, sep: char)
    requires sep !in a
    ensures Split(a + [sep] + rest, sep) == [a] + Split(rest, sep)
  {
    var s := a + [sep] + rest;
    assert s[|a|] == sep;
    assert IndexOf(s, sep) == |a| by {
      assert forall k :: 0 <= k < |a| ==> s[k] == a[k];
    }
    assert s[..|a|] == a;
    assert s[|a| + 1..] == rest;
  }

  /** Joining nine pieces, written out. */
  lemma JoinNine(a: string, b: string, c: string, d: string, e: string, f: string, g: string, h: string, i: string, sep: char)
    ensures JoinWith([a, b, c, d, e, f, g, h, i], sep)
      == a + [sep] + b + [sep] + c + [sep] + d + [sep] + e + [sep] + f + [sep] + g + [sep] + h + [sep] + i
  {
    JoinEight(b, c, d, e, f, g, h, i, sep);
    assert [a, b, c, d, e, f, g, h, i][1..] == [b, c, d, e, f, g, h, i];
  }

  /** The characters of `str(n)`: digits and perhaps a leading minus. */
  lemma DecimalChars(n: int)
    ensures forall k :: 0 <= k < |IntToString(n)| ==> IntToString(n)[k] == '-' || IsDigit(IntToString(n)[k])
    ensures IntToString(n) != [] && IsDigit(IntToString(n)[|IntToString(n)| - 1])
  {
    var s := IntToString(n);
    if n < 0 {
      assert s == "-" + NatToString(-n);
    }
  }

  /** The lines, each followed by a line break (`"".join(l + "\n" for l in lines)`). */
  function Terminated(lines: seq<string>): (r: string)
    ensures lines != [] ==> r != [] && r[|r| - 1] == '\n'
  {
    if lines == [] then [] else Terminated(lines[..|lines| - 1]) + lines[|lines| - 1] + "\n"
  }

  /** Splitting line-terminated text at the line breaks gives the lines
      back, then the empty piece after the last break. */
  lemma {:induction false} SplitTerminated(lines: seq<string>)
    requires forall k :: 0 <= k < |lines| ==> '\n' !in lines[k]
    ensures Split(Terminated(lines), '\n') == lines + [""]
    decreases |lines|
  {
    if lines != [] {
      var init := lines[..|lines| - 1];
      assert forall k :: 0 <= k < |init| ==> init[k] == lines[k];
      SplitTerminated(init);
      SplitTerminatedStep(init, lines[|lines| - 1]);
      assert init + [lines[|lines| - 1]] == lines;
    }
  }

  lemma SplitTerminatedStep(init: seq<string>, line: string)
    requires Split(Terminated(init), '\n') == init + [""]
    requires '\n' !in line
    ensures Split(Terminated(init + [line]), '\n') == init + [line] + [""]
  {
    TerminatedSnoc(init, line);
    SplitNextLine(Terminated(init), init, line);
    assert init + [line] + [""] == init + [line, ""];
  }

  lemma TerminatedSnoc(init: seq<string>, line: string)
    ensures Terminated(init + [line]) == Terminated(init) + (line + "\n")
  {
    var lines := init + [line];
    assert lines[..|lines| - 1] == init;
    AppendAssociates(Terminated(init), line, "\n");
  }

  /** One more line after line-terminated text is one more piece. */
  lemma SplitNextLine(front: string, init: seq<string>, line: string)
    requires Split(front, '\n') == init + [""]
    requires front == [] || front[|front| - 1] == '\n'
    requires '\n' !in line
    ensures Split(front + (line + "\n"), '\n') == init + [line, ""]
  {
    var tail := line + "\n";
    SplitOneLine(line);
    if front == [] {
      assert init == [];
      assert front + tail == tail;
    } else {
      SplitAfterTerminator(front, tail, '\n');
      var pieces := Split(front, '\n');
      assert pieces[..|pieces| - 1] == init;
    }
  }

  lemma SplitOneLine(line: string)
    requires '\n' !in line
    ensures Split(line + "\n", '\n') == [line, ""]
  {
    SplitFirst(line, "", '\n');
    assert line + "\n" == line + ['\n'] + "";
  }

  /** Splitting a text that ends in the separator, followed by more text: the
      last (empty) piece of the first part is where the second part starts. */
  lemma {:induction false} SplitAfterTerminator(a: string, b: string, sep: char)
    requires a != [] && a[|a| - 1] == sep
    ensures Split(a + b, sep) == Split(a, sep)[..|Split(a, sep)| - 1] + Split(b, sep)
    decreases |a|
  {
    var i := IndexOf(a, sep);
    if i == |a| - 1 {
      SplitAfterOnlyTerminator(a, b, sep);
    } else {
      var tail := a[i + 1..];
      assert tail != [] && tail[|tail| - 1] == sep;
      SplitAfterTerminator(tail, b, sep);
      SplitAfterLaterTerminator(a, b, sep);
    }
  }

  /** `a`'s only separator is its last character. */
  lemma SplitAfterOnlyTerminator(a: string, b: string, sep: char)
    requires a != [] && IndexOf(a, sep) == |a| - 1
    ensures Split(a + b, sep) == Split(a, sep)[..|Split(a, sep)| - 1] + Split(b, sep)
  {
    var i := IndexOf(a, sep);
    SplitPrefix(a, b, sep);
    var tail := a[i + 1..];
    assert tail == [] && tail + b == b;
    var whole := Split(a, sep);
    assert whole[..|whole| - 1] == [a[..i]] by {
      assert Split(tail, sep) == [[]];
    }
  }

  /** The step of `SplitAfterTerminator` when `a` has more separators after
      its first. */
  lemma SplitAfterLaterTerminator(a: string, b: string, sep: char)
    requires IndexOf(a, sep) < |a| - 1
    requires var tail := a[IndexOf(a, sep) + 1..];
      Split(tail + b, sep) == Split(tail, sep)[..|Split(tail, sep)| - 1] + Split(b, sep)
    ensures Split(a + b, sep) == Split(a, sep)[..|Split(a, sep)| - 1] + Split(b, sep)
  {
    var i := IndexOf(a, sep);
    var tail := a[i + 1..];
    SplitPrefix(a, b, sep);
    ConsBeforeLast(Split(a + b, sep), a[..i], Split(tail + b, sep), Split(tail, sep), Split(b, sep), Split(a, sep));
  }

  lemma ConsBeforeLast<T>(joined: seq<T>, head: T, later: seq<T>, rest: seq<T>, more: seq<T>, whole: seq<T>)
    requires |rest| >= 1
    requires joined == [head] + later && later == rest[..|rest| - 1] + more && whole == [head] + rest
    ensures joined == whole[..|whole| - 1] + more
  {
    assert whole[..|whole| - 1] == [head] + rest[..|rest| - 1];
    AppendAssociates([head], rest[..|rest| - 1], more);
  }

  /** The first separator of `a` is also the first of `a + b`. */
  lemma SplitPrefix(a: string, b: string, sep: char)
    requires IndexOf(a, sep) < |a|
    ensures Split(a, sep) == [a[..IndexOf(a, sep)]] + Split(a[IndexOf(a, sep) + 1..], sep)
    ensures Split(a + b, sep) == [a[..IndexOf(a, sep)]] + Split(a[IndexOf(a, sep) + 1..] + b, sep)
  {
    var i := IndexOf(a, sep);
    IndexOfPrefix(a, b, sep);
    assert (a + b)[..i] == a[..i] && (a + b)[i + 1..] == a[i + 1..] + b;
  }

  lemma IndexOfPrefix(a: string, b: string, sep: char)
    requires IndexOf(a, sep) < |a|
    ensures IndexOf(a + b, sep) == IndexOf(a, sep)
  {
    if a[0] != sep {
      assert (a + b)[1..] == a[1..] + b;
      IndexOfPrefix(a[1..], b, sep);
    }
  }

  // ---------------------------------------------------------------------------
  // Decimal integers: str(n), f"{n:0Wd}" and int(s)
  // ---------------------------------------------------------------------------

  function DigitChar(d: nat): (c: char)
    requires d < 10
    ensures IsDigit(c)
  {
    ('0' as int + d) as char
  }

  function DigitValue(c: char): nat
    requires IsDigit(c)
  {
    c as int - '0' as int
  }

  /** `str(n)` for a natural number. */
  function NatToString(n: nat): (s: string)
    ensures |s| >= 1
    ensures forall k :: 0 <= k < |s| ==> IsDigit(s[k])
    decreases n
  {
    if n < 10 then [DigitChar(n)] else NatToString(n / 10) + [DigitChar(n % 10)]
  }

  /** `str(n)` for any integer. */
  function IntToString(n: int): string {
    if n < 0 then "-" + NatToString(-n) else NatToString(n)
  }

  /** `f"{n:0{width}d}"`: the sign, then zeros, then the digits, padded to
      at least `width` characters in all. */
  function PadInt(n: int, width: nat): (s: string)
    ensures |s| >= width
  {
    var sign := if n < 0 then "-" else "";
    var digits := NatToString(if n < 0 then -n else n);
    var zeros := if |sign| + |digits| < width then width - |sign| - |digits| else 0;
    sign + seq(zeros, _ => '0') + digits
  }

  /** The digits of a Python integer literal, with single underscores allowed
      between digits (`1_000`). */
  predicate IsDigitPart(s: string) {
    && s != []
    && IsDigit(s[0])
    && DigitsOrUnderscores(s)
    && forall k :: 0 <= k < |s| && s[k] == '_' ==> k + 1 < |s| && IsDigit(s[k + 1])
  }

  predicate DigitsOrUnderscores(s: string) {
    forall k :: 0 <= k < |s| ==> IsDigit(s[k]) || s[k] == '_'
  }

  /** The value of a digit part, underscores ignored. */
  function DigitPartValue(s: string): nat
    requires DigitsOrUnderscores(s)
  {
    if s == [] then 0
    else if s[|s| - 1] == '_' then DigitPartValue(s[..|s| - 1])
    else 10 * DigitPartValue(s[..|s| - 1]) + DigitValue(s[|s| - 1])
  }

  /** Python's `int(s)` on text without surrounding whitespace: `None` where
      Python raises `ValueError`. Only ASCII digits are modelled. */
  function ParseInt(s: string): (r: Option<int>)
  {
    var negative := s != [] && s[0] == '-';
    var body := if s != [] && (s[0] == '-' || s[0] == '+') then s[1..] else s;
    if IsDigitPart(body) then
      Some(if negative then -(DigitPartValue(body) as int) else DigitPartValue(body) as int)
    else None
  }

  lemma {:induction false} NatToStringValue(n: nat)
    ensures IsDigitPart(NatToString(n))
    ensures DigitPartValue(NatToString(n)) == n
    decreases n
  {
    var s := NatToString(n);
    if n >= 10 {
      NatToStringValue(n / 10);
      assert s[..|s| - 1] == NatToString(n / 10);
      assert DigitValue(DigitChar(n % 10)) == n % 10;
    } else {
      assert s[..0] == [];
      assert DigitValue(DigitChar(n)) == n;
    }
  }

  /** `int(str(n)) == n`. */
  lemma IntToStringRoundTrip(n: int)
    ensures ParseInt(IntToString(n)) == Some(n)
  {
    var s := IntToString(n);
    if n < 0 {
      NatToStringValue(-n);
      assert s[0] == '-' && s[1..] == NatToString(-n);
    } else {
      NatToStringValue(n);
      assert IsDigit(s[0]);
    }
  }

  /** Leading zeros do not change the value of a digit part. */
  lemma {:induction false} LeadingZerosValue(zeros: string, d: string)
    requires forall k :: 0 <= k < |zeros| ==> zeros[k] == '0'
    requires DigitsOrUnderscores(d)
    ensures DigitsOrUnderscores(zeros + d)
    ensures DigitPartValue(zeros + d) == DigitPartValue(d)
    decreases |zeros| + |d|
  {
    var s := zeros + d;
    if d == [] {
      assert s == zeros;
      if zeros != [] {
        assert s[..|s| - 1] == zeros[..|zeros| - 1] + [];
        LeadingZerosValue(zeros[..|zeros| - 1], []);
        assert DigitValue(s[|s| - 1]) == 0;
      }
    } else {
      assert s[..|s| - 1] == zeros + d[..|d| - 1];
      LeadingZerosValue(zeros, d[..|d| - 1]);
    }
  }

  /** `int(f"{n:0{width}d}") == n` for a natural number: zero padding reads
      back as the same number. */
  lemma PadIntRoundTrip(n: nat, width: nat)
    ensures ParseInt(PadInt(n, width)) == Some(n)
  {
    var digits := NatToString(n);
    var s := PadInt(n, width);
    var zeros := if |digits| < width then width - |digits| else 0;
    var z := seq(zeros, _ => '0');
    assert s == z + digits;
    NatToStringValue(n);
    LeadingZerosValue(z, digits);
    assert IsDigit(s[0]);
    assert forall k :: 0 <= k < |s| ==> IsDigit(s[k]);
  }

  lemma {:induction false} NatToStringInjective(m: nat, n: nat)
    requires NatToString(m) == NatToString(n)
    ensures m == n
  {
    NatToStringValue(m);
    NatToStringValue(n);
  }

  // ---------------------------------------------------------------------------
  // float() literals
  // ---------------------------------------------------------------------------

  /** The text accepted by Python's `float()` after stripping: an optional sign,
      then `inf`, `infinity` or `nan` in any letter case, or a decimal number
      with an optional fraction and exponent. The value itself is not
      modelled. */
  predicate IsFloatText(s: string) {
    var body := if s != [] && (s[0] == '-' || s[0] == '+') then s[1..] else s;
    Lower(body) == "inf" || Lower(body) == "infinity" || Lower(body) == "nan" || IsDecimalText(body)
  }

  predicate IsDecimalText(s: string) {
    var e := IndexOfExponent(s);
    IsMantissa(s[..e]) && IsExponent(s[e..])
  }

  function IndexOfExponent(s: string): (i: nat)
    ensures i <= |s|
  {
    var i := IndexOf(s, 'e');
    var j := IndexOf(s, 'E');
    if i < j then i else j
  }

  predicate IsMantissa(m: string) {
    var d := IndexOf(m, '.');
    if d == |m| then IsDigitPart(m)
    else
      var whole, fraction := m[..d], m[d + 1..];
      && (whole == [] || IsDigitPart(whole))
      && (fraction == [] || IsDigitPart(fraction))
      && (whole != [] || fraction != [])
  }

  predicate IsExponent(x: string) {
    || x == []
    || (&& |x| >= 2
        && (x[0] == 'e' || x[0] == 'E')
        && IsDigitPart(if x[1] == '+' || x[1] == '-' then x[2..] else x[1..]))
  }

  /** A run of ASCII digits is a decimal float literal. */
  lemma DigitsAreDecimalText(d: string)
    requires d != [] && forall k :: 0 <= k < |d| ==> IsDigit(d[k])
    ensures IsDecimalText(d)
  {
    assert IndexOf(d, 'e') == |d| && IndexOf(d, 'E') == |d|;
    assert d[..|d|] == d && d[|d|..] == [];
    assert IndexOf(d, '.') == |d|;
  }

  /** Every rendering of an integer is a float literal. */
  lemma IntTextIsFloatText(n: int)
    ensures IsFloatText(IntToString(n))
  {
    var s := IntToString(n);
    if n < 0 {
      assert s[1..] == NatToString(-n);
      DigitsAreDecimalText(NatToString(-n));
    } else {
      DigitsAreDecimalText(NatToString(n));
    }
  }
}
