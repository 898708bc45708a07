/** Turning one fetched newsletter e-mail into a Markdown file: a
    front-matter block with the sender, subject, date and message id above
    the body, and a file name made of a sequence number, the sender's domain
    and a slug of the subject. */
module EmailConverter {
  import opened Wrappers
  import opened Text

  /** A civil date and time as the e-mail's `Date` header gives it. */
  datatype Stamp = Stamp(year: nat, month: nat, day: nat, hour: nat, minute: nat, second: nat)

  /** A fetched e-mail; an empty `bodyHtml` means the message had no HTML
      part. */
  datatype EmailData = EmailData(
    sender: string,
    subject: string,
    date: Stamp,
    bodyText: string,
    bodyHtml: string,
    messageId: string)

  /** `strftime('%Y-%m-%d %H:%M:%S')`. */
  function FormatStamp(t: Stamp): (r: string)
    ensures '\n' !in r
  {
    var r := PadInt(t.year, 4) + "-" + PadInt(t.month, 2) + "-" + PadInt(t.day, 2) + " "
      + PadInt(t.hour, 2) + ":" + PadInt(t.minute, 2) + ":" + PadInt(t.second, 2);
    assert forall k :: 0 <= k < |r| ==> IsDigit(r[k]) || r[k] in "- :" by {
      PadIntDigits(t.year, 4);
      PadIntDigits(t.month, 2);
      PadIntDigits(t.day, 2);
      PadIntDigits(t.hour, 2);
      PadIntDigits(t.minute, 2);
      PadIntDigits(t.second, 2);
    }
    r
  }

  lemma PadIntDigits(n: nat, width: nat)
    ensures forall k :: 0 <= k < |PadInt(n, width)| ==> IsDigit(PadInt(n, width)[k])
  {
  }

  /** The front-matter block: five lines between `---` fences, then a
      blank line. */
  function FrontMatter(e: EmailData): (r: string)
    ensures StartsWith(r, "---\nfrom: " + e.sender + "\nsubject: " + e.subject + "\n")
    ensures r[|r| - 1] == '\n'
  {
    var head := "---\nfrom: " + e.sender + "\nsubject: " + e.subject + "\n";
    var r := head + "date: " + FormatStamp(e.date) + "\nmessage_id: " + e.messageId + "\n---\n\n";
    assert r[..|head|] == head;
    r
  }

  /** The lines of the front-matter block, the blank line after it
      included. */
  function FrontLines(e: EmailData): (r: seq<string>)
    ensures |r| == 8 && r[0] == "---" && r[5] == "---" && r[6] == [] && r[7] == []
  {
    ["---", "from: " + e.sender, "subject: " + e.subject, "date: " + FormatStamp(e.date),
     "message_id: " + e.messageId, "---", "", ""]
  }

  /** The front-matter block is its lines joined by newlines. */
  lemma FrontMatterIsJoin(e: EmailData)
    ensures FrontMatter(e) == JoinWith(FrontLines(e), '\n')
  {
    var l := FrontLines(e);
    JoinEight(l[0], l[1], l[2], l[3], l[4], l[5], l[6], l[7], '\n');
    assert l == [l[0], l[1], l[2], l[3], l[4], l[5], l[6], l[7]];
    FrontMatterPieces(e.sender, e.subject, FormatStamp(e.date), e.messageId);
  }

  /** The literal pieces of the front matter, regrouped line by line. */
  lemma FrontMatterPieces(sender: string, subject: string, date: string, id: string)
    ensures "---\nfrom: " + sender + "\nsubject: " + subject + "\n" + "date: " + date + "\nmessage_id: " + id + "\n---\n\n"
      == "---" + ['\n'] + ("from: " + sender) + ['\n'] + ("subject: " + subject) + ['\n'] + ("date: " + date) + ['\n']
        + ("message_id: " + id) + ['\n'] + "---" + ['\n'] + "" + ['\n'] + ""
  {
    assert "---\nfrom: " == "---" + ['\n'] + "from: ";
    assert "\nsubject: " == ['\n'] + "subject: ";
    assert "\nmessage_id: " == ['\n'] + "message_id: ";
    assert "\n---\n\n" == ['\n'] + "---" + ['\n'] + "" + ['\n'] + "";
  }

  /** `to_markdown`: the front matter, then the body converted from HTML by
      `htmlToMarkdown` when there is HTML, the plain-text body otherwise. */
  function ToMarkdown(e: EmailData, htmlToMarkdown: string -> string): (r: string)
    ensures StartsWith(r, FrontMatter(e))
    ensures e.bodyHtml == [] ==> EndsWith(r, e.bodyText)
    ensures e.bodyHtml != [] ==> EndsWith(r, htmlToMarkdown(e.bodyHtml))
  {
    var front := FrontMatter(e);
    var content := if e.bodyHtml != [] then htmlToMarkdown(e.bodyHtml) else e.bodyText;
    assert (front + content)[..|front|] == front;
    assert (front + content)[|front + content| - |content|..] == content;
    front + content
  }

  /** Splitting the Markdown into lines gives back the front matter line by
      line, then the body's own lines: with a sender, subject and message id
      on one line each, every field can be read back. */
  lemma FrontMatterReadsBack(e: EmailData, htmlToMarkdown: string -> string)
    requires '\n' !in e.sender && '\n' !in e.subject && '\n' !in e.messageId
    ensures var content := if e.bodyHtml != [] then htmlToMarkdown(e.bodyHtml) else e.bodyText;
      Split(ToMarkdown(e, htmlToMarkdown), '\n') == FrontLines(e)[..7] + Split(content, '\n')
  {
    var lines := FrontLines(e);
    var front := FrontMatter(e);
    var content := if e.bodyHtml != [] then htmlToMarkdown(e.bodyHtml) else e.bodyText;
    assert Split(front, '\n') == lines by {
      assert forall k :: 0 <= k < |lines| ==> '\n' !in lines[k] by {
        NoNewlineAfterPrefix("from: ", e.sender);
        NoNewlineAfterPrefix("subject: ", e.subject);
        NoNewlineAfterPrefix("date: ", FormatStamp(e.date));
        NoNewlineAfterPrefix("message_id: ", e.messageId);
      }
      FrontMatterIsJoin(e);
      JoinSplit(lines, '\n');
    }
    assert Split(front + content, '\n') == lines[..7] + Split(content, '\n') by {
      SplitAfterTerminator(front, content, '\n');
    }
    assert ToMarkdown(e, htmlToMarkdown) == front + content;
  }

  lemma NoNewlineAfterPrefix(prefix: string, s: string)
    requires '\n' !in prefix && '\n' !in s
    ensures '\n' !in prefix + s
  {
  }

  // ---------------------------------------------------------------------------
  // File names
  // ---------------------------------------------------------------------------

  /** The class `[\w.-]`. */
  predicate IsDomainChar(c: char) {
    IsWordChar(c) || c == '.' || c == '-'
  }

  /** There is an `@` at `i` followed by a domain character. */
  predicate DomainStartsAt(s: string, i: int) {
    0 <= i && i + 1 < |s| && s[i] == '@' && IsDomainChar(s[i + 1])
  }

  /** `d` is the group matched at `i`: the `@` is there, `d` follows it,
      every character of `d` is a domain character, the run is maximal,
      and no earlier `@` starts a match. */
  predicate LeftmostMatch(s: string, i: int, d: string) {
    && DomainStartsAt(s, i)
    && i + 1 + |d| <= |s| && s[i + 1..i + 1 + |d|] == d
    && (forall k :: 0 <= k < |d| ==> IsDomainChar(d[k]))
    && (i + 1 + |d| == |s| || !IsDomainChar(s[i + 1 + |d|]))
    && (forall j :: 0 <= j < i ==> !DomainStartsAt(s, j))
  }

  /** `re.search(r'@([\w\.-]+)', s).group(1)`, `None` when the pattern
      does not occur. */
  function DomainSearch(s: string): Option<string>
    decreases |s|
  {
    if |s| < 2 then None
    else if DomainStartsAt(s, 0) then Some(s[1..1 + LeadingCount(s[1..], IsDomainChar)])
    else DomainSearch(s[1..])
  }

  /** The search fails exactly when no `@` is followed by a domain
      character; otherwise it returns the longest run after the leftmost
      such `@`. */
  lemma {:induction false} DomainSearchMeaning(s: string)
    ensures DomainSearch(s).None? <==> forall i :: 0 <= i < |s| ==> !DomainStartsAt(s, i)
    ensures DomainSearch(s).Some? ==> exists i :: LeftmostMatch(s, i, DomainSearch(s).value)
    decreases |s|
  {
    if |s| < 2 {
    } else if DomainStartsAt(s, 0) {
      var n := LeadingCount(s[1..], IsDomainChar);
      var d := s[1..1 + n];
      assert forall k :: 0 <= k < |d| ==> d[k] == s[1..][k];
      assert LeftmostMatch(s, 0, d);
    } else {
      DomainSearchMeaning(s[1..]);
      assert forall j :: 0 <= j < |s| - 1 ==> DomainStartsAt(s[1..], j) == DomainStartsAt(s, j + 1);
      assert forall j :: 1 <= j < |s| ==> DomainStartsAt(s, j) == DomainStartsAt(s[1..], j - 1);
      if DomainSearch(s[1..]).Some? {
        var d := DomainSearch(s[1..]).value;
        var i :| LeftmostMatch(s[1..], i, d);
        assert s[1..][i + 1..i + 1 + |d|] == s[i + 2..i + 2 + |d|];
        assert LeftmostMatch(s, i + 1, d);
      }
    }
  }

  /** The sender's domain, or `unknown` when the address has none. */
  function SenderDomain(sender: string): (r: string)
    ensures r != []
    ensures (forall i :: 0 <= i < |sender| ==> !DomainStartsAt(sender, i)) ==> r == "unknown"
    ensures (exists i :: 0 <= i < |sender| && DomainStartsAt(sender, i)) ==> exists i :: LeftmostMatch(sender, i, r)
  {
    DomainSearchMeaning(sender);
    match DomainSearch(sender)
    case Some(d) => d
    case None => "unknown"
  }

  /** The class `[\w\s-]`: what the slug keeps. */
  predicate IsSlugSource(c: char) {
    IsWordChar(c) || IsSpace(c) || c == '-'
  }

  /** The class `[\s_]`: what becomes a dash. */
  predicate IsGap(c: char) {
    IsSpace(c) || c == '_'
  }

  predicate IsDash(c: char) {
    c == '-'
  }

  /** `re.sub(r'[^...]', '', s)`: the characters `keep` accepts, in order. */
  function Filter(s: string, keep: char -> bool): (r: string)
    ensures |r| <= |s|
  {
    if s == [] then [] else (if keep(s[0]) then [s[0]] else []) + Filter(s[1..], keep)
  }

  /** What `Filter` keeps comes from its input and is accepted by `keep`. */
  lemma {:induction false} FilterChars(s: string, keep: char -> bool)
    ensures forall k :: 0 <= k < |Filter(s, keep)| ==> keep(Filter(s, keep)[k]) && Filter(s, keep)[k] in s
    decreases |s|
  {
    if s != [] {
      FilterChars(s[1..], keep);
      assert forall c :: c in s[1..] ==> c in s;
    }
  }

  /** `re.sub(r'[...]+', sep, s)`: every maximal run of `gap` characters
      replaced by the single character `sep`. */
  function CollapseRuns(s: string, gap: char -> bool, sep: char): (r: string)
    ensures |r| <= |s|
    decreases |s|
  {
    if s == [] then []
    else if gap(s[0]) then [sep] + CollapseRuns(s[LeadingCount(s, gap)..], gap, sep)
    else [s[0]] + CollapseRuns(s[1..], gap, sep)
  }

  predicate SeparatorOrKept(r: string, s: string, gap: char -> bool, sep: char) {
    forall k :: 0 <= k < |r| ==> r[k] == sep || (r[k] in s && !gap(r[k]))
  }

  /** After collapsing, every character is the separator or a non-gap
      character of the input: no gap character is left. */
  lemma {:induction false} CollapseRunsChars(s: string, gap: char -> bool, sep: char)
    ensures SeparatorOrKept(CollapseRuns(s, gap, sep), s, gap, sep)
    decreases |s|
  {
    if s != [] {
      var n := if gap(s[0]) then LeadingCount(s, gap) else 1;
      CollapseRunsChars(s[n..], gap, sep);
      var r, rest := CollapseRuns(s, gap, sep), CollapseRuns(s[n..], gap, sep);
      assert r == [if gap(s[0]) then sep else s[0]] + rest;
      forall k | 0 <= k < |r|
        ensures r[k] == sep || (r[k] in s && !gap(r[k]))
      {
        if k > 0 && rest[k - 1] != sep {
          assert r[k] == rest[k - 1];
          assert rest[k - 1] in s[n..];
          var j :| 0 <= j < |s[n..]| && s[n..][j] == rest[k - 1];
          assert s[n + j] == rest[k - 1];
        }
      }
    }
  }

  /** A character a slug may hold: a lower-case letter, a digit, a dash. */
  predicate IsSlugChar(c: char) {
    ('a' <= c <= 'z') || IsDigit(c) || c == '-'
  }

  const SlugLimit: nat := 50

  predicate AllSlugChars(s: string) {
    forall k :: 0 <= k < |s| ==> IsSlugChar(s[k])
  }

  /** The subject slug: lower-cased, special characters removed, runs of
      whitespace and underscores turned into one dash, cut to 50
      characters, and dashes stripped from both ends. */
  function Slug(subject: string): (r: string)
    ensures |r| <= SlugLimit
    ensures AllSlugChars(r)
    ensures r != [] ==> r[0] != '-' && r[|r| - 1] != '-'
  {
    var dashed := CollapseRuns(Filter(Lower(subject), IsSlugSource), IsGap, '-');
    var cut := if |dashed| <= SlugLimit then dashed else dashed[..SlugLimit];
    DashedAreSlugChars(subject);
    assert AllSlugChars(cut);
    TrimmedAreSlugChars(cut);
    Trim(cut, IsDash)
  }

  /** Before the cut, only lower-case letters, digits and dashes are
      left. */
  lemma DashedAreSlugChars(subject: string)
    ensures AllSlugChars(CollapseRuns(Filter(Lower(subject), IsSlugSource), IsGap, '-'))
  {
    var lowered := Lower(subject);
    var kept := Filter(lowered, IsSlugSource);
    FilterChars(lowered, IsSlugSource);
    CollapseRunsChars(kept, IsGap, '-');
    assert forall c :: c in lowered ==> !('A' <= c <= 'Z');
    assert forall c :: c in kept ==> IsSlugSource(c) && !('A' <= c <= 'Z');
  }

  lemma TrimmedAreSlugChars(cut: string)
    requires AllSlugChars(cut)
    ensures AllSlugChars(Trim(cut, IsDash))
  {
    TrimIsInfix(cut, IsDash);
    var i, j :| 0 <= i <= j <= |cut| && Trim(cut, IsDash) == cut[i..j];
    assert forall k :: 0 <= k < j - i ==> cut[i..j][k] == cut[i + k];
  }

  /** `generate_filename`: `{seq:03d}_{domain}_{slug}.md`. */
  function GenerateFilename(e: EmailData, sequence: int): (r: string)
    ensures EndsWith(r, ".md")
    ensures sequence >= 0 ==> StartsWith(r, PadInt(sequence, 3) + "_")
  {
    var head := PadInt(sequence, 3) + "_";
    var r := head + SenderDomain(e.sender) + "_" + Slug(e.subject) + ".md";
    assert r[..|head|] == head;
    assert r[|r| - 3..] == ".md";
    r
  }

  /** Different sequence numbers give different file names, whatever the
      e-mails: the number before the first underscore reads back as the
      sequence number. */
  lemma FilenamesDistinct(e1: EmailData, m: nat, e2: EmailData, n: nat)
    requires m != n
    ensures GenerateFilename(e1, m) != GenerateFilename(e2, n)
  {
    var f1, f2 := GenerateFilename(e1, m), GenerateFilename(e2, n);
    var a, b := PadInt(m, 3), PadInt(n, 3);
    PadIntDigits(m, 3);
    PadIntDigits(n, 3);
    NumberBeforeUnderscore(a, f1);
    NumberBeforeUnderscore(b, f2);
    assert a != b by {
      PadIntRoundTrip(m, 3);
      PadIntRoundTrip(n, 3);
    }
  }

  /** A zero-padded natural number followed by `_` is exactly the part
      before the first underscore. */
  lemma NumberBeforeUnderscore(number: string, f: string)
    requires forall k :: 0 <= k < |number| ==> IsDigit(number[k])
    requires StartsWith(f, number + "_")
    ensures f[..IndexOf(f, '_')] == number
  {
    var i := IndexOf(f, '_');
    assert f[|number|] == '_';
    assert forall k :: 0 <= k < |number| ==> f[k] == number[k];
    assert i == |number|;
  }

  /** The sender domain of the example address. */
  lemma DomainExample(sender: string)
    requires sender == "newsletter@github.com"
    ensures SenderDomain(sender) == "github.com"
  {
    var d := "github.com";
    assert sender == "newsletter" + "@" + d;
    assert DomainStartsAt(sender, 10);
    var r := SenderDomain(sender);
    var i :| LeftmostMatch(sender, i, r);
    assert i == 10;
    assert forall k :: 11 <= k < |sender| ==> IsDomainChar(sender[k]);
    assert |r| == 10;
  }

  // ---------------------------------------------------------------------------
  // The file name of the converter's own example
  // ---------------------------------------------------------------------------

  lemma {:induction false} FilterAppend(a: string, b: string, keep: char -> bool)
    ensures Filter(a + b, keep) == Filter(a, keep) + Filter(b, keep)
    decreases |a|
  {
    if a == [] {
      assert a + b == b;
    } else {
      var head := if keep(a[0]) then [a[0]] else [];
      var rest := Filter(a[1..], keep);
      assert (a + b)[0] == a[0];
      assert (a + b)[1..] == a[1..] + b;
      assert Filter(a + b, keep) == head + Filter(a[1..] + b, keep);
      FilterAppend(a[1..], b, keep);
      assert head + (rest + Filter(b, keep)) == (head + rest) + Filter(b, keep);
    }
  }

  lemma {:induction false} FilterKeepsAll(s: string, keep: char -> bool)
    requires forall k :: 0 <= k < |s| ==> keep(s[k])
    ensures Filter(s, keep) == s
    decreases |s|
  {
    if s != [] {
      FilterKeepsAll(s[1..], keep);
    }
  }

  /** A piece without gap characters passes through unchanged. */
  lemma {:induction false} CollapseWord(w: string, t: string, gap: char -> bool, sep: char)
    requires forall k :: 0 <= k < |w| ==> !gap(w[k])
    ensures CollapseRuns(w + t, gap, sep) == w + CollapseRuns(t, gap, sep)
    decreases |w|
  {
    if w == [] {
      assert w + t == t;
    } else {
      assert (w + t)[1..] == w[1..] + t;
      CollapseWord(w[1..], t, gap, sep);
    }
  }

  /** A single gap character before a non-gap one becomes one separator. */
  lemma CollapseOneGap(c: char, t: string, gap: char -> bool, sep: char)
    requires gap(c) && t != [] && !gap(t[0])
    ensures CollapseRuns([c] + t, gap, sep) == [sep] + CollapseRuns(t, gap, sep)
  {
    var s := [c] + t;
    assert s[1..] == t;
    assert LeadingCount(s[1..], gap) == 0;
    assert LeadingCount(s, gap) == 1;
  }

  /** The example subject's slug. */
  lemma SlugExample(subject: string)
    requires subject == "GitHub Changelog Feb 10!"
    ensures Slug(subject) == "github-changelog-feb-10"
  {
    var lowered, kept, dashed := "github changelog feb 10!", "github changelog feb 10", "github-changelog-feb-10";
    LowerExample(subject, lowered);
    KeptExample(lowered, kept);
    DashedExample(kept, dashed);
    TrimExample(dashed);
  }

  lemma LowerExample(subject: string, lowered: string)
    requires subject == "GitHub Changelog Feb 10!" && lowered == "github changelog feb 10!"
    ensures Lower(subject) == lowered
  {
    assert forall k :: 0 <= k < |subject| ==> LowerChar(subject[k]) == lowered[k];
  }

  lemma KeptExample(lowered: string, kept: string)
    requires lowered == "github changelog feb 10!" && kept == "github changelog feb 10"
    ensures Filter(lowered, IsSlugSource) == kept
  {
    assert lowered == kept + "!";
    FilterAppend(kept, "!", IsSlugSource);
    forall k | 0 <= k < |kept|
      ensures IsSlugSource(kept[k])
    {
      assert IsAsciiLetter(kept[k]) || IsDigit(kept[k]) || kept[k] == ' ';
    }
    FilterKeepsAll(kept, IsSlugSource);
    assert Filter("!", IsSlugSource) == [];
  }

  lemma DashedExample(kept: string, dashed: string)
    requires kept == "github changelog feb 10" && dashed == "github-changelog-feb-10"
    ensures CollapseRuns(kept, IsGap, '-') == dashed
  {
    var w1, w2, w3, w4 := "github", "changelog", "feb", "10";
    assert kept == w1 + " " + (w2 + " " + (w3 + " " + w4)) by {
      ExampleWords(kept, dashed);
    }
    assert dashed == w1 + "-" + (w2 + "-" + (w3 + "-" + w4)) by {
      ExampleWords(kept, dashed);
    }
    assert WordsWithoutGaps(w1, w2, w3, w4) by {
      AlphanumericIsNotGap(w1);
      AlphanumericIsNotGap(w2);
      AlphanumericIsNotGap(w3);
      AlphanumericIsNotGap(w4);
    }
    CollapseExample(w1, w2, w3, w4);
  }

  predicate WordsWithoutGaps(w1: string, w2: string, w3: string, w4: string) {
    && (forall k :: 0 <= k < |w1| ==> !IsGap(w1[k]))
    && (forall k :: 0 <= k < |w2| ==> !IsGap(w2[k]))
    && (forall k :: 0 <= k < |w3| ==> !IsGap(w3[k]))
    && (forall k :: 0 <= k < |w4| ==> !IsGap(w4[k]))
  }

  lemma ExampleWords(kept: string, dashed: string)
    requires kept == "github changelog feb 10" && dashed == "github-changelog-feb-10"
    ensures kept == "github" + " " + ("changelog" + " " + ("feb" + " " + "10"))
    ensures dashed == "github" + "-" + ("changelog" + "-" + ("feb" + "-" + "10"))
  {
  }

  lemma AlphanumericIsNotGap(w: string)
    requires forall k :: 0 <= k < |w| ==> ('a' <= w[k] <= 'z') || IsDigit(w[k])
    ensures forall k :: 0 <= k < |w| ==> !IsGap(w[k])
  {
  }

  lemma TrimExample(dashed: string)
    requires dashed == "github-changelog-feb-10"
    ensures Trim(dashed, IsDash) == dashed
  {
    assert LeadingCount(dashed, IsDash) == 0;
    assert TrailingCount(dashed, IsDash) == 0;
  }

  /** A word, one space, and more text that starts with a non-gap
      character: the space becomes one dash. */
  lemma CollapseAfterWord(w: string, t: string)
    requires forall k :: 0 <= k < |w| ==> !IsGap(w[k])
    requires t != [] && !IsGap(t[0])
    ensures CollapseRuns(w + " " + t, IsGap, '-') == w + "-" + CollapseRuns(t, IsGap, '-')
  {
    CollapseWord(w, [' '] + t, IsGap, '-');
    CollapseOneGap(' ', t, IsGap, '-');
    assert w + " " + t == w + ([' '] + t);
  }

  /** Four words separated by single spaces become the words joined by
      dashes. */
  lemma CollapseExample(w1: string, w2: string, w3: string, w4: string)
    requires WordsWithoutGaps(w1, w2, w3, w4)
    requires w2 != [] && w3 != [] && w4 != []
    ensures CollapseRuns(w1 + " " + (w2 + " " + (w3 + " " + w4)), IsGap, '-') == w1 + "-" + (w2 + "-" + (w3 + "-" + w4))
  {
    assert w4 + [] == w4;
    CollapseWord(w4, [], IsGap, '-');
    CollapseAfterWord(w3, w4);
    var t3 := w3 + " " + w4;
    assert t3[0] == w3[0];
    CollapseAfterWord(w2, t3);
    var t2 := w2 + " " + t3;
    assert t2[0] == w2[0];
    CollapseAfterWord(w1, t2);
  }

  /** `generate_filename` on the converter's example: sequence 5, sender
      `newsletter@github.com`, subject `GitHub Changelog Feb 10!`. */
  lemma FilenameExample(e: EmailData)
    requires e.sender == "newsletter@github.com" && e.subject == "GitHub Changelog Feb 10!"
    ensures GenerateFilename(e, 5) == "005_github.com_github-changelog-feb-10.md"
  {
    var pad, domain, slug := PadInt(5, 3), SenderDomain(e.sender), Slug(e.subject);
    assert GenerateFilename(e, 5) == pad + "_" + domain + "_" + slug + ".md";
    DomainExample(e.sender);
    SlugExample(e.subject);
    PadFive();
    FilenameLiteral(pad, domain, slug);
  }

  lemma PadFive()
    ensures PadInt(5, 3) == "005"
  {
    assert NatToString(5) == "5";
    assert seq(2, _ => '0') == "00";
  }

  lemma FilenameLiteral(pad: string, domain: string, slug: string)
    requires pad == "005" && domain == "github.com" && slug == "github-changelog-feb-10"
    ensures pad + "_" + domain + "_" + slug + ".md" == "005_github.com_github-changelog-feb-10.md"
  {
  }
}
