/** Output formatting for the chat channel: removing terminal escape codes
    from the external tool's output, and splitting a long message into chunks
    that fit the channel's per-message limit. */
module Formatter {
  import opened Wrappers
  import opened Text

  /** The escape character, `\x1B`. */
  const ESC: char := '\U{1B}'

  /** The default `max_length` of `split_long_message`: the channel's limit. */
  const MessageLimit: nat := 4096

  // ---------------------------------------------------------------------------
  // split_long_message
  // ---------------------------------------------------------------------------

  /** The chunks the `while text` loop produces: windows of `n` characters
      taken from the front until nothing is left. */
  function Slices(text: string, n: nat): seq<string>
    requires n > 0
    decreases |text|
  {
    if text == [] then []
    else if |text| <= n then [text]
    else [text[..n]] + Slices(text[n..], n)
  }

  /** What `split_long_message(text, max_length)` returns. The loop only ends
      when every round removes something, hence the precondition: with a
      bound of zero or less, a non-empty text longer than the bound loops
      forever. The empty text with a negative bound is longer than the
      bound, but the loop does not run, and no chunk comes back. */
  function Split(text: string, maxLength: int): seq<string>
    requires maxLength > 0 || |text| <= maxLength || text == []
  {
    if |text| <= maxLength then [text]
    else if text == [] then []
    else Slices(text, maxLength)
  }

  method SplitLongMessage(text: string, maxLength: int) returns (chunks: seq<string>)
    requires maxLength > 0 || |text| <= maxLength || text == []
    ensures chunks == Split(text, maxLength)
  {
    if |text| <= maxLength {
      return [text];
    }
    if text == [] {
      return [];
    }
    chunks := [];
    var rest := text;
    while rest != []
      invariant chunks + Slices(rest, maxLength) == Slices(text, maxLength)
      decreases |rest|
    {
      var window := if |rest| < maxLength then |rest| else maxLength;
      SlicesStep(rest, maxLength);
      chunks := chunks + [rest[..window]];
      rest := rest[window..];
    }
  }

  /** One round of the loop: the first window, then the slices of the rest. */
  lemma SlicesStep(text: string, n: nat)
    requires n > 0 && text != []
    ensures var w := if |text| < n then |text| else n;
      Slices(text, n) == [text[..w]] + Slices(text[w..], n)
  {
    if |text| <= n {
      assert text[..|text|] == text;
      if |text| == n {
        assert text[..n] == text;
      }
    }
  }

  /** The slices of a text, joined, are the text. */
  lemma {:induction false} SlicesConcat(text: string, n: nat)
    requires n > 0
    ensures Concat(Slices(text, n)) == text
    decreases |text|
  {
    if |text| > n {
      SlicesConcat(text[n..], n);
      var tail := Slices(text[n..], n);
      assert ([text[..n]] + tail)[1..] == tail;
      assert text == text[..n] + text[n..];
    } else if text != [] {
      assert Concat([text]) == text + Concat([]);
    }
  }

  /** Each slice is non-empty and at most `n` long, and all but the last are
      exactly `n` long. */
  lemma {:induction false} SlicesBounds(text: string, n: nat)
    requires n > 0
    ensures forall i :: 0 <= i < |Slices(text, n)| ==> 0 < |Slices(text, n)[i]| <= n
    ensures forall i :: 0 <= i < |Slices(text, n)| - 1 ==> |Slices(text, n)[i]| == n
    decreases |text|
  {
    if |text| > n {
      SlicesBounds(text[n..], n);
      var tail := Slices(text[n..], n);
      assert Slices(text, n) == [text[..n]] + tail;
      assert forall i :: 1 <= i < |tail| + 1 ==> Slices(text, n)[i] == tail[i - 1];
    }
  }

  /** There are `ceil(|text| / n)` slices. */
  lemma {:induction false} SlicesCount(text: string, n: nat)
    requires n > 0
    ensures |Slices(text, n)| == (|text| + n - 1) / n
    decreases |text|
  {
    if |text| > n {
      var rest := text[n..];
      SlicesCount(rest, n);
      assert |text| + n - 1 == (|rest| + n - 1) + n;
      DivStep(|rest| + n - 1, n);
    } else if text != [] {
      assert n <= |text| + n - 1 < 2 * n;
      DivOne(|text| + n - 1, n);
    } else {
      DivZero(n - 1, n);
    }
  }

  lemma MulAtLeast(a: int, n: int)
    requires a >= 1 && n > 0
    ensures a * n >= n
  {
    if a > 1 {
      MulAtLeast(a - 1, n);
      assert a * n == (a - 1) * n + n;
    }
  }

  /** Division has one quotient: the `q` with `x == q * n + r`, `0 <= r < n`. */
  lemma DivUnique(x: int, n: int, q: int, r: int)
    requires n > 0 && 0 <= r < n && x == q * n + r
    ensures x / n == q
  {
    var q0, r0 := x / n, x % n;
    assert x == q0 * n + r0;
    assert (q - q0) * n == r0 - r by {
      assert (q - q0) * n == q * n - q0 * n;
    }
    if q > q0 {
      MulAtLeast(q - q0, n);
    } else if q < q0 {
      MulAtLeast(q0 - q, n);
    }
  }

  lemma DivStep(x: nat, n: nat)
    requires n > 0
    ensures (x + n) / n == x / n + 1
  {
    DivUnique(x + n, n, x / n + 1, x % n);
  }

  lemma DivOne(x: nat, n: nat)
    requires n > 0 && n <= x < 2 * n
    ensures x / n == 1
  {
    DivUnique(x, n, 1, x - n);
  }

  lemma DivZero(x: nat, n: nat)
    requires 0 <= x < n
    ensures x / n == 0
  {
    DivUnique(x, n, 0, x);
  }

  /** Concatenating the chunks reproduces the message exactly. */
  lemma SplitConcat(text: string, maxLength: int)
    requires maxLength > 0 || |text| <= maxLength || text == []
    ensures Concat(Split(text, maxLength)) == text
  {
    if |text| <= maxLength {
      assert Concat([text]) == text + Concat([]);
    } else if text != [] {
      SlicesConcat(text, maxLength);
    }
  }

  /** There are no chunks only for the empty text with a negative bound,
      and at least one otherwise. Every chunk fits the bound (the short case
      needs a non-negative bound for this to mean anything); when a non-empty
      text is split, no chunk is empty, every chunk but the last is exactly
      `maxLength` long, and there are `ceil(|text| / maxLength)` chunks. */
  lemma SplitShape(text: string, maxLength: int)
    requires maxLength > 0 || |text| <= maxLength || text == []
    ensures Split(text, maxLength) == [] <==> text == [] && maxLength < 0
    ensures forall i :: 0 <= i < |Split(text, maxLength)| ==> |Split(text, maxLength)[i]| <= maxLength
    ensures |text| > maxLength && text != [] ==>
      && (forall i :: 0 <= i < |Split(text, maxLength)| ==> Split(text, maxLength)[i] != [])
      && (forall i :: 0 <= i < |Split(text, maxLength)| - 1 ==> |Split(text, maxLength)[i]| == maxLength)
      && |Split(text, maxLength)| == (|text| + maxLength - 1) / maxLength
  {
    if |text| > maxLength && text != [] {
      SlicesBounds(text, maxLength);
      SlicesCount(text, maxLength);
    }
  }

  /** 5000 characters with the bound 4096 give chunks of 4096 and 904. */
  lemma SplitFiveThousand()
    ensures var chunks := Split(seq(5000, _ => 'A'), 4096);
      |chunks| == 2 && |chunks[0]| == 4096 && |chunks[1]| == 904
  {
    var text := seq(5000, _ => 'A');
    assert Slices(text[4096..], 4096) == [text[4096..]];
  }

  // ---------------------------------------------------------------------------
  // remove_ansi_codes
  // ---------------------------------------------------------------------------

  /** The byte after ESC in a two-character escape: `@`..`Z` or `\`..`_`
      (the "ESC Fe" form of section 5.3 of ECMA-48). `[` is not among
      them: it opens a control sequence. */
  predicate IsFeByte(c: char) {
    ('@' <= c <= 'Z') || ('\\' <= c <= '_')
  }

  /** Control-sequence parameter, intermediate and final bytes (section 5.4
      of ECMA-48). */
  predicate IsParameterByte(c: char) { '0' <= c <= '?' }
  predicate IsIntermediateByte(c: char) { ' ' <= c <= '/' }
  predicate IsFinalByte(c: char) { '@' <= c <= '~' }

  /** The length of the escape sequence that the pattern
      `\x1B(?:[@-Z\\-_]|\[[0-?]*[ -/]*[@-~])` matches at the front of `s`,
      or `None` when it matches nothing there. The three byte classes of a
      control sequence are disjoint, so taking the longest run of parameter
      bytes and then of intermediate bytes is the only way the final byte can
      match: backtracking would put a parameter or intermediate byte where a
      final byte is needed. */
  function EscapeLength(s: string): (r: Option<nat>)
    ensures r.Some? ==> 2 <= r.value <= |s| && s[0] == ESC
  {
    if |s| < 2 || s[0] != ESC then None
    else if IsFeByte(s[1]) then Some(2)
    else if s[1] != '[' then None
    else
      var p := 2 + LeadingCount(s[2..], IsParameterByte);
      var q := p + LeadingCount(s[p..], IsIntermediateByte);
      if q < |s| && IsFinalByte(s[q]) then Some(q + 1) else None
  }

  /** `remove_ansi_codes`: scanning left to right, each escape sequence is
      deleted; every other character is kept. Text without ESC is returned
      unchanged, and the result is never longer than the input. */
  function RemoveAnsiCodes(text: string): (r: string)
    ensures |r| <= |text|
    ensures ESC !in text ==> r == text
    decreases |text|
  {
    if text == [] then []
    else
      match EscapeLength(text)
      case Some(k) => RemoveAnsiCodes(text[k..])
      case None => [text[0]] + RemoveAnsiCodes(text[1..])
  }

  /** `a` can be obtained from `b` by deleting characters. */
  predicate IsSubsequence(a: string, b: string)
    decreases |b|
  {
    a == [] || (b != [] && ((a[0] == b[0] && IsSubsequence(a[1..], b[1..])) || IsSubsequence(a, b[1..])))
  }

  lemma {:induction false} SubsequenceOfSuffix(a: string, b: string, k: nat)
    requires k <= |b| && IsSubsequence(a, b[k..])
    ensures IsSubsequence(a, b)
    decreases k
  {
    if k > 0 {
      assert b[k..] == b[1..][k - 1..];
      SubsequenceOfSuffix(a, b[1..], k - 1);
    }
  }

  /** Only deletions happen: the output is a subsequence of the input. */
  lemma {:induction false} RemoveAnsiCodesDeletesOnly(text: string)
    ensures IsSubsequence(RemoveAnsiCodes(text), text)
    decreases |text|
  {
    if text != [] {
      match EscapeLength(text)
      case Some(k) =>
        RemoveAnsiCodesDeletesOnly(text[k..]);
        SubsequenceOfSuffix(RemoveAnsiCodes(text[k..]), text, k);
      case None =>
        RemoveAnsiCodesDeletesOnly(text[1..]);
        var r := RemoveAnsiCodes(text);
        assert r == [text[0]] + RemoveAnsiCodes(text[1..]);
        assert r[1..] == RemoveAnsiCodes(text[1..]);
    }
  }

  lemma {:induction false} LeadingCountOfRun(run: string, rest: string, drop: char -> bool)
    requires forall k :: 0 <= k < |run| ==> drop(run[k])
    requires rest != [] ==> !drop(rest[0])
    ensures LeadingCount(run + rest, drop) == |run|
    decreases |run|
  {
    if run != [] {
      assert (run + rest)[1..] == run[1..] + rest;
      LeadingCountOfRun(run[1..], rest, drop);
    } else {
      assert run + rest == rest;
    }
  }

  /** A complete two-character escape is deleted wherever it starts. */
  lemma FeEscapeRemoved(c: char, rest: string)
    requires IsFeByte(c)
    ensures RemoveAnsiCodes([ESC, c] + rest) == RemoveAnsiCodes(rest)
  {
    assert ([ESC, c] + rest)[2..] == rest;
  }

  /** A complete control sequence (ESC, `[`, parameter bytes, intermediate
      bytes, one final byte) is deleted wherever it starts. */
  lemma ControlSequenceRemoved(params: string, inter: string, final: char, rest: string)
    requires forall k :: 0 <= k < |params| ==> IsParameterByte(params[k])
    requires forall k :: 0 <= k < |inter| ==> IsIntermediateByte(inter[k])
    requires IsFinalByte(final)
    ensures RemoveAnsiCodes([ESC, '['] + params + inter + [final] + rest) == RemoveAnsiCodes(rest)
  {
    var s := [ESC, '['] + params + inter + [final] + rest;
    var afterParams := inter + [final] + rest;
    assert s[2..] == params + afterParams;
    LeadingCountOfRun(params, afterParams, IsParameterByte);
    var p := 2 + |params|;
    assert s[p..] == inter + ([final] + rest);
    LeadingCountOfRun(inter, [final] + rest, IsIntermediateByte);
    var q := p + |inter|;
    assert s[q] == final;
    assert EscapeLength(s) == Some(q + 1);
    assert s[q + 1..] == rest;
  }

  /** The SGR reset code `ESC [ 0 m`. */
  const Reset: string := [ESC, '[', '0', 'm']

  lemma ResetRemoved(tail: string)
    requires ESC !in tail
    ensures RemoveAnsiCodes(Reset + tail) == tail
  {
    assert Reset + tail == [ESC, '['] + "0" + [] + ['m'] + tail;
    ControlSequenceRemoved("0", [], 'm', tail);
  }

  /** A coloured word followed by a reset code loses both codes. */
  lemma ColouredWord(colour: string, word: string, tail: string)
    requires forall k :: 0 <= k < |colour| ==> IsParameterByte(colour[k])
    requires ESC !in word && ESC !in tail
    ensures RemoveAnsiCodes([ESC, '['] + colour + ['m'] + word + Reset + tail) == word + tail
  {
    var rest := word + (Reset + tail);
    var whole := [ESC, '['] + colour + ['m'] + word + Reset + tail;
    assert RemoveAnsiCodes(rest) == word + tail by {
      ResetRemoved(tail);
      PlainPrefix(word, Reset + tail);
    }
    assert RemoveAnsiCodes(whole) == RemoveAnsiCodes(rest) by {
      assert whole == [ESC, '['] + colour + [] + ['m'] + rest;
      ControlSequenceRemoved(colour, [], 'm', rest);
    }
  }

  /** `"\033[31mRed text\033[0m normal text"` becomes `"Red text normal text"`. */
  lemma RemoveColourCodes(text: string)
    requires text == "\U{1B}[31mRed text\U{1B}[0m normal text"
    ensures RemoveAnsiCodes(text) == "Red text normal text"
  {
    var word, tail := "Red text", " normal text";
    assert word + tail == "Red text normal text";
    assert text == [ESC, '['] + "31" + ['m'] + word + Reset + tail;
    ColouredWord("31", word, tail);
  }

  /** A prefix without ESC passes through unchanged. */
  lemma {:induction false} PlainPrefix(plain: string, rest: string)
    requires ESC !in plain
    ensures RemoveAnsiCodes(plain + rest) == plain + RemoveAnsiCodes(rest)
    decreases |plain|
  {
    if plain != [] {
      assert (plain + rest)[1..] == plain[1..] + rest;
      assert EscapeLength(plain + rest) == None;
      PlainPrefix(plain[1..], rest);
    } else {
      assert plain + rest == rest;
    }
  }
}
