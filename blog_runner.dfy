/** One blog source, one call of the external assistant: the reply is
    classified as a failure, as "no new content", or as a summary that is
    saved under a file name derived from the blog's URL. */
module BlogRunner {
  import opened Wrappers
  import opened Text
  import opened Workspace

  /** The sentinel the assistant prints when a blog has nothing new. */
  const NoNewContentMarker: string := "NO_NEW_CONTENT"

  const FetchPromptPath: string := ".claude/prompts/blog_fetch_prompt.md"

  /** The prompt for one blog: the base prompt, a rule, and the blog's name
      and URL. */
  function FetchPrompt(base: string, name: string, url: string): (r: string)
    ensures StartsWith(r, base) && EndsWith(r, url)
  {
    var tail := "\n\n---\n\nBlog do sprawdzenia:\n- NAME: " + name + "\n- URL: " + url;
    assert (base + tail)[..|base|] == base;
    assert (base + tail)[|base + tail| - |url|..] == url;
    base + tail
  }

  // ---------------------------------------------------------------------------
  // _url_to_filename
  // ---------------------------------------------------------------------------

  /** `re.sub(r"https?://", "", s)`: every occurrence of either scheme
      prefix, found left to right without overlap, is deleted. */
  function RemoveSchemes(s: string): (r: string)
    ensures |r| <= |s|
    decreases |s|
  {
    if StartsWith(s, "https://") then RemoveSchemes(s[8..])
    else if StartsWith(s, "http://") then RemoveSchemes(s[7..])
    else if s == [] then []
    else [s[0]] + RemoveSchemes(s[1..])
  }

  /** Characters the file name keeps: word characters and '.'. */
  predicate IsNameChar(c: char) {
    IsWordChar(c) || c == '.'
  }

  /** `re.sub(r"[^\w.]", "_", s)`. */
  function Sanitize(s: string): (r: string)
    ensures |r| == |s|
    ensures forall i :: 0 <= i < |s| ==> r[i] == (if IsNameChar(s[i]) then s[i] else '_')
  {
    seq(|s|, i requires 0 <= i < |s| => if IsNameChar(s[i]) then s[i] else '_')
  }

  predicate IsUnderscore(c: char) {
    c == '_'
  }

  /** Only word characters and dots. */
  predicate AllNameChars(s: string) {
    forall k :: 0 <= k < |s| ==> IsNameChar(s[k])
  }

  /** No two adjacent underscores. */
  predicate NoDoubleUnderscore(s: string) {
    forall i :: 0 <= i < |s| - 1 ==> !(s[i] == '_' && s[i + 1] == '_')
  }

  /** `s` with every underscore deleted. */
  function WithoutUnderscores(s: string): (r: string)
    ensures '_' !in r
    decreases |s|
  {
    if s == [] then [] else (if s[0] == '_' then [] else [s[0]]) + WithoutUnderscores(s[1..])
  }

  /** `re.sub(r"_+", "_", s)`: every run of underscores becomes one. */
  function CollapseUnderscores(s: string): (r: string)
    ensures |r| <= |s|
    ensures r != [] ==> s != [] && r[0] == s[0]
    decreases |s|
  {
    if s == [] then []
    else if s[0] == '_' && |s| > 1 && s[1] == '_' then CollapseUnderscores(s[1..])
    else [s[0]] + CollapseUnderscores(s[1..])
  }

  /** Collapsing leaves no double underscore, deletes underscores only, and
      keeps every character of the input. */
  lemma {:induction false} CollapseUnderscoresMeaning(s: string)
    ensures NoDoubleUnderscore(CollapseUnderscores(s))
    ensures WithoutUnderscores(CollapseUnderscores(s)) == WithoutUnderscores(s)
    ensures AllNameChars(s) ==> AllNameChars(CollapseUnderscores(s))
    decreases |s|
  {
    if s != [] {
      CollapseUnderscoresMeaning(s[1..]);
      var rest := CollapseUnderscores(s[1..]);
      if !(s[0] == '_' && |s| > 1 && s[1] == '_') {
        var r := [s[0]] + rest;
        assert r[1..] == rest;
        if s[0] == '_' && rest != [] {
          assert rest[0] == s[1];
        }
        forall i | 0 <= i < |r| - 1
          ensures !(r[i] == '_' && r[i + 1] == '_')
        {
          if i > 0 {
            assert r[i] == rest[i - 1] && r[i + 1] == rest[i];
          }
        }
      }
    }
  }

  /** The stem of the file name: schemes removed, other characters replaced,
      underscore runs collapsed, and underscores stripped from both ends. */
  function FileStem(url: string): (r: string)
  {
    Trim(CollapseUnderscores(Sanitize(RemoveSchemes(url))), IsUnderscore)
  }

  /** `_url_to_filename`. */
  function UrlToFilename(url: string): (r: string)
    ensures EndsWith(r, ".md")
  {
    var stem := FileStem(url);
    assert (stem + ".md")[|stem|..] == ".md";
    stem + ".md"
  }

  /** The stem is made of word characters and dots only (so it never holds
      '/'), never holds two adjacent underscores, and never starts or ends
      with an underscore. */
  lemma FileStemShape(url: string)
    ensures AllNameChars(FileStem(url))
    ensures '/' !in FileStem(url)
    ensures NoDoubleUnderscore(FileStem(url))
    ensures FileStem(url) != [] ==> FileStem(url)[0] != '_' && FileStem(url)[|FileStem(url)| - 1] != '_'
  {
    var sanitized := Sanitize(RemoveSchemes(url));
    var collapsed := CollapseUnderscores(sanitized);
    CollapseUnderscoresMeaning(sanitized);
    TrimIsInfix(collapsed, IsUnderscore);
    var i, j :| 0 <= i <= j <= |collapsed| && FileStem(url) == collapsed[i..j];
    InfixShape(collapsed, i, j);
  }

  /** A piece of a string keeps its character classes and its lack of
      double underscores. */
  lemma InfixShape(s: string, i: nat, j: nat)
    requires i <= j <= |s| && AllNameChars(s) && NoDoubleUnderscore(s)
    ensures AllNameChars(s[i..j]) && NoDoubleUnderscore(s[i..j]) && '/' !in s[i..j]
  {
    var t := s[i..j];
    forall k | 0 <= k < |t| - 1 ensures !(t[k] == '_' && t[k + 1] == '_') {
      assert t[k] == s[i + k] && t[k + 1] == s[i + k + 1];
    }
    assert forall k :: 0 <= k < |t| ==> t[k] == s[i + k];
  }

  /** "https://example.com/blog" is saved as "example.com_blog.md". */
  lemma ExampleFilename(url: string)
    requires url == "https://example.com/blog"
    ensures UrlToFilename(url) == "example.com_blog.md"
  {
    var stem := "example.com_blog";
    assert stem + ".md" == "example.com_blog.md";
    ExampleStem(url, stem);
  }

  lemma ExampleStem(url: string, stem: string)
    requires url == "https://example.com/blog" && stem == "example.com_blog"
    ensures FileStem(url) == stem
  {
    var rest := "example.com/blog";
    assert url == "https://" + rest;
    SchemeExample(url, rest);
    SanitizeExample(rest, stem);
    CollapseExample(stem);
  }

  lemma SchemeExample(url: string, rest: string)
    requires rest == "example.com/blog" && url == "https://" + rest
    ensures RemoveSchemes(url) == rest
  {
    assert url[..8] == "https://";
    assert url[8..] == rest;
    assert ':' !in rest;
    RemoveSchemesWithoutColon(rest);
  }

  lemma CollapseExample(stem: string)
    requires stem == "example.com_blog"
    ensures CollapseUnderscores(stem) == stem && Trim(stem, IsUnderscore) == stem
  {
    CollapseWithoutDouble(stem);
    assert LeadingCount(stem, IsUnderscore) == 0;
    assert TrailingCount(stem, IsUnderscore) == 0;
  }

  lemma SanitizeExample(rest: string, stem: string)
    requires rest == "example.com/blog" && stem == "example.com_blog"
    ensures Sanitize(rest) == stem
  {
    assert |Sanitize(rest)| == |stem|;
    forall i | 0 <= i < |stem| ensures Sanitize(rest)[i] == stem[i] {
      if i == 11 {
        assert !IsNameChar(rest[i]);
      } else {
        assert rest[i] == stem[i] && IsNameChar(rest[i]);
      }
    }
  }

  /** Text without ':' holds no scheme prefix and passes unchanged. */
  lemma {:induction false} RemoveSchemesWithoutColon(s: string)
    requires ':' !in s
    ensures RemoveSchemes(s) == s
    decreases |s|
  {
    if s != [] {
      assert !StartsWith(s, "https://") by { if |s| >= 8 { assert s[5] != ':'; } }
      assert !StartsWith(s, "http://") by { if |s| >= 7 { assert s[4] != ':'; } }
      RemoveSchemesWithoutColon(s[1..]);
      assert [s[0]] + s[1..] == s;
    }
  }

  /** A scheme prefix anywhere in the URL is deleted, not only a leading
      one: after a stretch of text without ':', the scheme goes and the rest
      is cleaned in turn. */
  lemma {:induction false} SchemeAfterPlainText(a: string, scheme: string, b: string)
    requires scheme == "https://" || scheme == "http://"
    requires ':' !in a
    ensures RemoveSchemes(a + scheme + b) == a + RemoveSchemes(b)
    decreases |a|
  {
    var rest := scheme + b;
    assert a + scheme + b == a + rest;
    if a == [] {
      assert a + rest == rest;
      SchemeAtStart(scheme, b);
    } else {
      var s := a + rest;
      NoSchemeBeforeColon(a, rest);
      assert s[1..] == a[1..] + rest;
      SchemeAfterPlainText(a[1..], scheme, b);
      assert a[1..] + scheme + b == a[1..] + rest;
      assert [a[0]] + (a[1..] + RemoveSchemes(b)) == a + RemoveSchemes(b);
    }
  }

  /** A leading scheme is deleted. */
  lemma SchemeAtStart(scheme: string, b: string)
    requires scheme == "https://" || scheme == "http://"
    ensures RemoveSchemes(scheme + b) == RemoveSchemes(b)
  {
    var s := scheme + b;
    assert s[..|scheme|] == scheme && s[|scheme|..] == b;
    if scheme == "http://" {
      if |s| >= 8 { assert s[..8][4] == ':'; }
    }
  }

  /** A URL that starts with some text without ':' followed by "http" does
      not start with a scheme: the scheme's ':' would have to fall inside
      the text or inside "http". */
  lemma NoSchemeBeforeColon(a: string, rest: string)
    requires a != [] && ':' !in a
    requires |rest| >= 4 && rest[..4] == "http"
    ensures !StartsWith(a + rest, "https://") && !StartsWith(a + rest, "http://")
  {
    var s := a + rest;
    assert forall k :: 0 <= k < 4 ==> s[|a| + k] == rest[k] != ':';
    assert forall k :: 0 <= k < |a| ==> s[k] == a[k] != ':';
    if |s| >= 8 {
      if |a| == 1 {
        assert s[..8][4] == rest[3] != "https://"[4];
      } else {
        assert s[..8][5] != "https://"[5];
      }
    }
    if |s| >= 7 {
      assert s[..7][4] != "http://"[4];
    }
  }

  /** Text without two adjacent underscores is left alone by collapsing. */
  lemma {:induction false} CollapseWithoutDouble(s: string)
    requires NoDoubleUnderscore(s)
    ensures CollapseUnderscores(s) == s
    decreases |s|
  {
    if s != [] {
      assert NoDoubleUnderscore(s[1..]) by {
        forall i | 0 <= i < |s[1..]| - 1 ensures !(s[1..][i] == '_' && s[1..][i + 1] == '_') {
          assert s[1..][i] == s[i + 1] && s[1..][i + 1] == s[i + 2];
        }
      }
      CollapseWithoutDouble(s[1..]);
      if |s| > 1 {
        assert !(s[0] == '_' && s[1] == '_');
      }
      assert [s[0]] + s[1..] == s;
    }
  }

  // ---------------------------------------------------------------------------
  // fetch_blog
  // ---------------------------------------------------------------------------

  /** How one reply of the assistant is read. */
  datatype Verdict = Failed(message: string) | NoNewContent | Content(text: string)

  /** A raised call or a nonzero exit is a failure; otherwise the stripped
      output is either the sentinel case (the marker occurs anywhere in it)
      or the content to save. */
  function Classify(reply: ToolReply): (v: Verdict)
    ensures v.Failed? <==> reply.Raised? || reply.returnCode != 0
    ensures reply.Raised? ==> v == Failed(reply.message)
    ensures reply.Exited? && reply.returnCode != 0 ==> v == Failed(ExecutionFailed(reply.stderr))
    ensures v.NoNewContent? <==>
      reply.Exited? && reply.returnCode == 0 && Contains(Strip(reply.stdout), NoNewContentMarker)
    ensures v.Content? ==> v.text == Strip(reply.stdout) && !Contains(v.text, NoNewContentMarker)
  {
    match reply
    case Raised(message) => Failed(message)
    case Exited(code, stdout, stderr, _) =>
      if code != 0 then Failed(ExecutionFailed(stderr))
      else if Contains(Strip(stdout), NoNewContentMarker) then NoNewContent
      else Content(Strip(stdout))
  }

  /** `fetch_blog` as a step: `Ok(None)` is the no-new-content answer,
      `Ok(Some(path))` names the one file written. A missing prompt file
      stops everything before the call; only the content case writes, and it
      writes exactly one file, holding the stripped output. */
  function FetchStep(prompt: Option<string>, url: string, name: string, outputPath: string,
                     files: map<string, string>, respond: (nat, string) -> ToolReply, requests: seq<string>)
    : (s: Step<Option<string>>)
    ensures prompt.None? ==> s == Step(Err(PromptNotFound(FetchPromptPath)), files, requests)
    ensures prompt.Some? ==> s.requests == requests + [FetchPrompt(prompt.value, name, url)]
    ensures prompt.Some? ==>
      var v := Classify(respond(|requests|, FetchPrompt(prompt.value, name, url)));
      && (v.Failed? ==> s.result == Err(v.message) && s.files == files)
      && (v.NoNewContent? ==> s.result == Ok(None) && s.files == files)
      && (v.Content? ==> s.result == Ok(Some(outputPath + "/" + UrlToFilename(url)))
                         && s.files == files[UrlToFilename(url) := v.text])
    ensures s.files != files ==> s.result == Ok(Some(outputPath + "/" + UrlToFilename(url)))
    ensures s.result.Ok? && s.result.value.Some? ==>
      prompt.Some? && s.result.value.value == outputPath + "/" + UrlToFilename(url)
      && var reply := respond(|requests|, FetchPrompt(prompt.value, name, url));
      && reply.Exited? && reply.returnCode == 0
      && !Contains(Strip(reply.stdout), NoNewContentMarker)
      && s.files == files[UrlToFilename(url) := Strip(reply.stdout)]
  {
    if prompt.None? then Step(Err(PromptNotFound(FetchPromptPath)), files, requests)
    else
      var full := FetchPrompt(prompt.value, name, url);
      var after := requests + [full];
      match Classify(respond(|requests|, full))
      case Failed(message) => Step(Err(message), files, after)
      case NoNewContent => Step(Ok(None), files, after)
      case Content(text) =>
        Step(Ok(Some(outputPath + "/" + UrlToFilename(url))), files[UrlToFilename(url) := text], after)
  }

  /** The fetcher, configured with its prompt file (`None` when the file
      does not exist). */
  class Runner {
    const prompt: Option<string>

    constructor (prompt: Option<string>)
      ensures this.prompt == prompt
    {
      this.prompt := prompt;
    }

    /** `fetch_blog`: does what `FetchStep` describes to the folder and the
        assistant. */
    method FetchBlog(url: string, name: string, outputPath: string, output: Directory, tool: ExternalTool)
      returns (r: Result<Option<string>, string>)
      modifies output, tool
      ensures var s := FetchStep(prompt, url, name, outputPath, old(output.files), tool.respond, old(tool.requests));
        r == s.result && output.files == s.files && tool.requests == s.requests
    {
      if prompt.None? {
        return Err(PromptNotFound(FetchPromptPath));
      }
      var reply := tool.Run(FetchPrompt(prompt.value, name, url));
      match Classify(reply)
      case Failed(message) =>
        r := Err(message);
      case NoNewContent =>
        r := Ok(None);
      case Content(text) =>
        var filename := UrlToFilename(url);
        output.Write(filename, text);
        r := Ok(Some(outputPath + "/" + filename));
    }
  }
}
