/** The blog pipeline: read the list of blogs, fetch each one into the
    week folder (a failing blog is logged and skipped), and aggregate the
    fetched summaries into one digest text. */
module BlogProcessor {
  import opened Wrappers
  import opened Text
  import opened Workspace
  import opened BlogRunner
  import opened BlogSummarizer

  /** One entry of the `sources` list; a key the JSON object lacks is
      `None`. */
  datatype Source = Source(url: Option<string>, name: Option<string>)

  /** The sources file: absent, present but not a JSON object with a
      `sources` list (the text of the exception raised while reading it), or
      its list. */
  datatype SourcesFile = Missing | Unreadable(message: string) | Listed(sources: seq<Source>)

  const DefaultBaseDir: string := "tech-blog-summaries"
  const NoNewPosts: string := "No new blog posts this week."

  /** The text of the `FileNotFoundError` for an absent sources file. */
  function SourcesNotFound(path: string): (r: string)
    ensures StartsWith(r, "Blog sources file not found: ") && EndsWith(r, path)
  {
    "Blog sources file not found: " + path
  }

  /** `str(KeyError(key))`: the key in single quotes. */
  function MissingKey(key: string): (r: string)
    ensures |r| == |key| + 2 && r[0] == '\'' && r[|r| - 1] == '\'' && r[1..|r| - 1] == key
  {
    "'" + key + "'"
  }

  /** Where the per-blog loop stands: the paths saved so far, the folder, the
      assistant's call log, and the exception that escaped the loop, if one
      did. */
  datatype Fetched = Fetched(saved: seq<string>, files: map<string, string>, requests: seq<string>, escaped: Option<string>)

  /** One iteration of the per-blog loop. A source without `url` raises
      `KeyError` before the call, and the handler's own `source['url']`
      raises it again, out of the loop; a source without `name` is skipped;
      any exception of the fetch itself is swallowed; only a returned path
      is kept. After an escape nothing more happens. */
  function FetchOne(prompt: Option<string>, outputPath: string, respond: (nat, string) -> ToolReply,
                    acc: Fetched, source: Source): (r: Fetched)
    ensures acc.escaped.Some? ==> r == acc
    ensures acc.escaped.None? && source.url.None? ==> r == acc.(escaped := Some(MissingKey("url")))
    ensures source.url.Some? ==> r.escaped == acc.escaped
    ensures r.saved == acc.saved
      || (&& acc.escaped.None? && source.url.Some? && source.name.Some?
          && r.saved == acc.saved + [outputPath + "/" + UrlToFilename(source.url.value)])
    ensures !(acc.escaped.None? && source.url.Some? && source.name.Some? && prompt.Some?) ==> r.saved == acc.saved
    ensures acc.escaped.None? && source.url.Some? && source.name.Some? && prompt.Some? ==>
      (|r.saved| == |acc.saved| + 1 <==>
       Classify(respond(|acc.requests|, FetchPrompt(prompt.value, source.name.value, source.url.value))).Content?)
  {
    if acc.escaped.Some? then acc
    else if source.url.None? then acc.(escaped := Some(MissingKey("url")))
    else if source.name.None? then acc
    else
      var s := FetchStep(prompt, source.url.value, source.name.value, outputPath, acc.files, respond, acc.requests);
      var saved := if s.result.Ok? && s.result.value.Some? then acc.saved + [s.result.value.value] else acc.saved;
      Fetched(saved, s.files, s.requests, None)
  }

  /** The loop over the first `|sources|` entries. */
  function FetchAll(prompt: Option<string>, outputPath: string, respond: (nat, string) -> ToolReply,
                    start: Fetched, sources: seq<Source>): (r: Fetched)
    ensures start.escaped.None? && (forall i :: 0 <= i < |sources| ==> sources[i].url.Some?) ==> r.escaped.None?
    ensures |start.saved| <= |r.saved| <= |start.saved| + |sources|
    decreases |sources|
  {
    if sources == [] then start
    else FetchOne(prompt, outputPath, respond, FetchAll(prompt, outputPath, respond, start, sources[..|sources| - 1]), sources[|sources| - 1])
  }

  /** The blog pipeline, with its sources file, its base folder and its two
      collaborators. */
  class Processor {
    const sourcesPath: string
    const sourcesFile: SourcesFile
    const baseDir: string
    const runner: Runner
    const summarizer: Summarizer

    /** `BlogProcessor(sources_file, base_dir)`: the base folder defaults to
        `tech-blog-summaries`. */
    constructor (sourcesPath: string, sourcesFile: SourcesFile, baseDir: Option<string>,
                 fetchPrompt: Option<string>, summaryPrompt: Option<string>)
      ensures this.sourcesPath == sourcesPath && this.sourcesFile == sourcesFile
      ensures this.baseDir == baseDir.GetOr(DefaultBaseDir)
      ensures runner.prompt == fetchPrompt && summarizer.prompt == summaryPrompt
    {
      this.sourcesPath := sourcesPath;
      this.sourcesFile := sourcesFile;
      this.baseDir := baseDir.GetOr(DefaultBaseDir);
      runner := new Runner(fetchPrompt);
      summarizer := new Summarizer(summaryPrompt);
    }

    /** The body of the per-blog loop for a source with a `url`: a source
        without `name` is skipped, otherwise the blog is fetched and a
        returned path is kept. */
    method FetchSource(source: Source, path: string, folder: Directory, tool: ExternalTool, saved: seq<string>)
      returns (kept: seq<string>)
      requires source.url.Some?
      modifies folder, tool
      ensures FetchOne(runner.prompt, path, tool.respond, Fetched(saved, old(folder.files), old(tool.requests), None), source)
        == Fetched(kept, folder.files, tool.requests, None)
    {
      kept := saved;
      if source.name.Some? {
        var r := runner.FetchBlog(source.url.value, source.name.value, path, folder, tool);
        if r.Ok? && r.value.Some? {
          kept := saved + [r.value.value];
        }
      }
    }

    /** `process` for ISO week number `week` and calendar year `year`, with `folder` the week
        folder (created if need be, so it may hold files of an earlier run
        that week). Every escaping exception becomes the failure record; an
        empty harvest reports success without aggregating; otherwise the
        count is the number of saved files and the summary is the
        aggregation's text. */
    method Process(week: int, year: int, folder: Directory, tool: ExternalTool) returns (report: RunReport)
      modifies folder, tool
      ensures sourcesFile.Missing? ==>
        report == Failure(SourcesNotFound(sourcesPath)) && folder.files == old(folder.files) && tool.requests == old(tool.requests)
      ensures sourcesFile.Unreadable? ==>
        report == Failure(sourcesFile.message) && folder.files == old(folder.files) && tool.requests == old(tool.requests)
      ensures sourcesFile.Listed? ==>
        var path := WeekFolder(baseDir, week, year);
        var f := FetchAll(runner.prompt, path, tool.respond, Fetched([], old(folder.files), old(tool.requests), None), sourcesFile.sources);
        var s := SummarizeStep(summarizer.prompt, path, f.files, tool.respond, f.requests);
        if f.escaped.Some? then
          report == Failure(f.escaped.value) && folder.files == f.files && tool.requests == f.requests
        else if f.saved == [] then
          report == RunReport(true, 0, Some(path), Some(NoNewPosts), None)
          && folder.files == f.files && tool.requests == f.requests
        else
          && folder.files == s.files && tool.requests == s.requests
          && report == match s.result
            case Err(message) => Failure(message)
            case Ok(summary) => RunReport(true, |f.saved|, Some(path), Some(summary), None)
    {
      if sourcesFile.Missing? {
        return Failure(SourcesNotFound(sourcesPath));
      }
      if sourcesFile.Unreadable? {
        return Failure(sourcesFile.message);
      }
      var sources := sourcesFile.sources;
      var path := WeekFolder(baseDir, week, year);
      ghost var start := Fetched([], folder.files, tool.requests, None);
      var saved: seq<string> := [];
      var i := 0;
      while i < |sources|
        invariant 0 <= i <= |sources|
        invariant FetchAll(runner.prompt, path, tool.respond, start, sources[..i])
          == Fetched(saved, folder.files, tool.requests, None)
      {
        var source := sources[i];
        FetchAllNext(runner.prompt, path, tool.respond, start, sources, i);
        if source.url.None? {
          EscapeStays(runner.prompt, path, tool.respond, start, sources, i + 1);
          assert sources[..|sources|] == sources;
          return Failure(MissingKey("url"));
        }
        saved := FetchSource(source, path, folder, tool, saved);
        i := i + 1;
      }
      assert sources[..i] == sources;
      if saved == [] {
        return RunReport(true, 0, Some(path), Some(NoNewPosts), None);
      }
      var summary := summarizer.Summarize(path, folder, tool);
      match summary
      case Err(message) =>
        report := Failure(message);
      case Ok(text) =>
        report := RunReport(true, |saved|, Some(path), Some(text), None);
    }
  }

  /** The loop over one more source is one more iteration. */
  lemma FetchAllNext(prompt: Option<string>, outputPath: string, respond: (nat, string) -> ToolReply,
                     start: Fetched, sources: seq<Source>, i: nat)
    requires i < |sources|
    ensures FetchAll(prompt, outputPath, respond, start, sources[..i + 1])
      == FetchOne(prompt, outputPath, respond, FetchAll(prompt, outputPath, respond, start, sources[..i]), sources[i])
  {
    assert sources[..i + 1][..i] == sources[..i];
  }

  /** Once an exception has escaped the loop, the remaining sources change
      nothing. */
  lemma {:induction false} EscapeStays(prompt: Option<string>, outputPath: string, respond: (nat, string) -> ToolReply,
                                      start: Fetched, sources: seq<Source>, n: nat)
    requires n <= |sources|
    requires FetchAll(prompt, outputPath, respond, start, sources[..n]).escaped.Some?
    ensures FetchAll(prompt, outputPath, respond, start, sources) == FetchAll(prompt, outputPath, respond, start, sources[..n])
    decreases |sources| - n
  {
    if n < |sources| {
      var longer := sources[..n + 1];
      assert longer[..|longer| - 1] == sources[..n];
      EscapeStays(prompt, outputPath, respond, start, sources, n + 1);
    } else {
      assert sources[..n] == sources;
    }
  }

  /** The run escapes exactly when some source lacks `url`, and then its
      error text is `'url'`: a blog that fails to fetch never stops the
      others. */
  lemma {:induction false} EscapesIffUrlMissing(prompt: Option<string>, outputPath: string, respond: (nat, string) -> ToolReply,
                                                 start: Fetched, sources: seq<Source>)
    requires start.escaped.None?
    ensures FetchAll(prompt, outputPath, respond, start, sources).escaped.Some?
      <==> exists i :: 0 <= i < |sources| && sources[i].url.None?
    ensures FetchAll(prompt, outputPath, respond, start, sources).escaped.Some? ==>
      FetchAll(prompt, outputPath, respond, start, sources).escaped == Some(MissingKey("url"))
    decreases |sources|
  {
    if sources != [] {
      var init, last := sources[..|sources| - 1], sources[|sources| - 1];
      EscapesIffUrlMissing(prompt, outputPath, respond, start, init);
      var before := FetchAll(prompt, outputPath, respond, start, init);
      assert FetchAll(prompt, outputPath, respond, start, sources) == FetchOne(prompt, outputPath, respond, before, last);
      if before.escaped.Some? {
        var i :| 0 <= i < |init| && init[i].url.None?;
        assert sources[i] == init[i];
      } else {
        assert forall i :: 0 <= i < |init| ==> sources[i] == init[i];
      }
    }
  }

  /** `path` is the week folder joined with the file name of one of the
      sources' URLs. */
  predicate NamesSource(path: string, outputPath: string, sources: seq<Source>) {
    exists i :: 0 <= i < |sources| && sources[i].url.Some? && path == outputPath + "/" + UrlToFilename(sources[i].url.value)
  }

  predicate AllNameSources(saved: seq<string>, outputPath: string, sources: seq<Source>) {
    forall k :: 0 <= k < |saved| ==> NamesSource(saved[k], outputPath, sources)
  }

  /** Every saved path is the week folder joined with the file name of one
      of the sources' URLs. */
  lemma {:induction false} SavedPathsNameSources(prompt: Option<string>, outputPath: string, respond: (nat, string) -> ToolReply,
                                                  start: Fetched, sources: seq<Source>)
    requires start.saved == []
    ensures AllNameSources(FetchAll(prompt, outputPath, respond, start, sources).saved, outputPath, sources)
    decreases |sources|
  {
    if sources != [] {
      var init, last := sources[..|sources| - 1], sources[|sources| - 1];
      SavedPathsNameSources(prompt, outputPath, respond, start, init);
      var before := FetchAll(prompt, outputPath, respond, start, init);
      var f := FetchOne(prompt, outputPath, respond, before, last);
      assert FetchAll(prompt, outputPath, respond, start, sources) == f;
      forall k | 0 <= k < |f.saved|
        ensures NamesSource(f.saved[k], outputPath, sources)
      {
        if k < |before.saved| {
          assert f.saved[k] == before.saved[k];
          assert NamesSource(before.saved[k], outputPath, init);
          NamesSourceGrows(f.saved[k], outputPath, init, sources);
        } else {
          assert f.saved[k] == outputPath + "/" + UrlToFilename(sources[|sources| - 1].url.value);
        }
      }
    }
  }

  lemma NamesSourceGrows(path: string, outputPath: string, init: seq<Source>, sources: seq<Source>)
    requires |init| <= |sources| && init == sources[..|init|]
    requires NamesSource(path, outputPath, init)
    ensures NamesSource(path, outputPath, sources)
  {
    var i :| 0 <= i < |init| && init[i].url.Some? && path == outputPath + "/" + UrlToFilename(init[i].url.value);
    assert sources[i] == init[i];
  }

  /** Without the fetch prompt file every blog fails before any call: the
      assistant is never asked and nothing is saved, so (with every `url`
      present) the run reports no new posts. */
  lemma {:induction false} NoFetchPromptSavesNothing(outputPath: string, respond: (nat, string) -> ToolReply,
                                                      start: Fetched, sources: seq<Source>)
    ensures var f := FetchAll(None, outputPath, respond, start, sources);
      f.saved == start.saved && f.files == start.files && f.requests == start.requests
    decreases |sources|
  {
    if sources != [] {
      NoFetchPromptSavesNothing(outputPath, respond, start, sources[..|sources| - 1]);
    }
  }

  /** With the prompt present and nothing escaping, the assistant is called
      once per source that has both keys, in order. */
  lemma {:induction false} OneCallPerNamedSource(fetchPrompt: string, outputPath: string, respond: (nat, string) -> ToolReply,
                                                 start: Fetched, sources: seq<Source>)
    requires start.escaped.None?
    requires forall i :: 0 <= i < |sources| ==> sources[i].url.Some?
    ensures var f := FetchAll(Some(fetchPrompt), outputPath, respond, start, sources);
      f.requests == start.requests + Prompts(fetchPrompt, sources)
    decreases |sources|
  {
    if sources != [] {
      var init := sources[..|sources| - 1];
      var last := sources[|sources| - 1];
      OneCallPerNamedSource(fetchPrompt, outputPath, respond, start, init);
      var before := FetchAll(Some(fetchPrompt), outputPath, respond, start, init);
      assert before.escaped.None? by {
        assert forall i :: 0 <= i < |init| ==> init[i] == sources[i];
      }
      FetchOneRequests(fetchPrompt, outputPath, respond, before, last);
      assert init + [last] == sources;
      PromptsSnoc(fetchPrompt, init, last);
      AppendAssociates(start.requests, Prompts(fetchPrompt, init), PromptOf(fetchPrompt, last));
    }
  }

  /** The number of calls, among `prompts` made from call number `first`
      on, whose reply is content to save. */
  function ContentReplies(respond: (nat, string) -> ToolReply, first: nat, prompts: seq<string>): (n: nat)
    ensures n <= |prompts|
    decreases |prompts|
  {
    if prompts == [] then 0
    else
      var last := |prompts| - 1;
      ContentReplies(respond, first, prompts[..last])
        + (if Classify(respond(first + last, prompts[last])).Content? then 1 else 0)
  }

  /** `blog_count` counts exactly the fetches that returned a path: with
      the prompt present and every `url` given, the run saves one path per
      call whose reply is content, and none for a failed call or a
      no-new-content answer. */
  lemma {:induction false} SavedCountIsContentReplies(fetchPrompt: string, outputPath: string,
                                                       respond: (nat, string) -> ToolReply,
                                                       start: Fetched, sources: seq<Source>)
    requires start.escaped.None?
    requires forall i :: 0 <= i < |sources| ==> sources[i].url.Some?
    ensures |FetchAll(Some(fetchPrompt), outputPath, respond, start, sources).saved|
      == |start.saved| + ContentReplies(respond, |start.requests|, Prompts(fetchPrompt, sources))
    decreases |sources|
  {
    if sources == [] {
      assert Prompts(fetchPrompt, sources) == [];
    } else {
      var init := sources[..|sources| - 1];
      var last := sources[|sources| - 1];
      assert forall i :: 0 <= i < |init| ==> init[i] == sources[i];
      SavedCountIsContentReplies(fetchPrompt, outputPath, respond, start, init);
      OneCallPerNamedSource(fetchPrompt, outputPath, respond, start, init);
      EscapesIffUrlMissing(Some(fetchPrompt), outputPath, respond, start, init);
      assert init + [last] == sources;
      PromptsSnoc(fetchPrompt, init, last);
      CountStep(fetchPrompt, outputPath, respond, |start.requests|, Prompts(fetchPrompt, init),
                FetchAll(Some(fetchPrompt), outputPath, respond, start, init), last);
    }
  }

  /** One more iteration adds one saved path exactly when its call, the
      next one after `done`, replies with content. */
  lemma CountStep(fetchPrompt: string, outputPath: string, respond: (nat, string) -> ToolReply,
                  first: nat, done: seq<string>, before: Fetched, last: Source)
    requires before.escaped.None? && last.url.Some?
    requires |before.requests| == first + |done|
    ensures |FetchOne(Some(fetchPrompt), outputPath, respond, before, last).saved| - |before.saved|
      == ContentReplies(respond, first, done + PromptOf(fetchPrompt, last)) - ContentReplies(respond, first, done)
  {
    if last.name.Some? {
      var all := done + PromptOf(fetchPrompt, last);
      assert all[..|all| - 1] == done;
    } else {
      assert done + PromptOf(fetchPrompt, last) == done;
    }
  }

  /** The request one loop iteration makes, if any. */
  lemma FetchOneRequests(fetchPrompt: string, outputPath: string, respond: (nat, string) -> ToolReply,
                         acc: Fetched, source: Source)
    requires acc.escaped.None? && source.url.Some?
    ensures FetchOne(Some(fetchPrompt), outputPath, respond, acc, source).requests
      == acc.requests + PromptOf(fetchPrompt, source)
  {
    if source.name.None? {
      assert acc.requests + [] == acc.requests;
    }
  }

  /** The fetch prompt for a source that has both keys, none otherwise. */
  function PromptOf(fetchPrompt: string, source: Source): (r: seq<string>)
    ensures |r| <= 1
  {
    if source.url.Some? && source.name.Some?
    then [FetchPrompt(fetchPrompt, source.name.value, source.url.value)] else []
  }

  /** The fetch prompts of the sources that have both keys, in order. */
  function Prompts(fetchPrompt: string, sources: seq<Source>): (r: seq<string>)
    ensures |r| <= |sources|
  {
    if sources == [] then []
    else PromptOf(fetchPrompt, sources[0]) + Prompts(fetchPrompt, sources[1..])
  }

  lemma {:induction false} PromptsAppend(fetchPrompt: string, a: seq<Source>, b: seq<Source>)
    ensures Prompts(fetchPrompt, a + b) == Prompts(fetchPrompt, a) + Prompts(fetchPrompt, b)
    decreases |a|
  {
    if a != [] {
      assert (a + b)[0] == a[0];
      assert (a + b)[1..] == a[1..] + b;
      PromptsAppend(fetchPrompt, a[1..], b);
      AppendAssociates(PromptOf(fetchPrompt, a[0]), Prompts(fetchPrompt, a[1..]), Prompts(fetchPrompt, b));
    } else {
      assert a + b == b;
    }
  }

  lemma PromptsSnoc(fetchPrompt: string, init: seq<Source>, last: Source)
    ensures Prompts(fetchPrompt, init + [last]) == Prompts(fetchPrompt, init) + PromptOf(fetchPrompt, last)
  {
    PromptsAppend(fetchPrompt, init, [last]);
    assert [last][1..] == [];
    assert PromptOf(fetchPrompt, last) + [] == PromptOf(fetchPrompt, last);
  }
}
