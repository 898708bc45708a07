/** The aggregation step of the blog pipeline: one call of the external
    assistant over the week folder, after checking that the folder holds at
    least one per-blog summary; the answer is the `summary.md` the call left
    behind, or else its standard output. */
module BlogSummarizer {
  import opened Wrappers
  import opened Text
  import opened Workspace

  const SummaryPromptPath: string := ".claude/prompts/blog_summary_prompt.md"

  /** `[f for f in folder.glob("*.md") if f.name != "summary.md"]`, as a set
      of names. */
  function Candidates(files: map<string, string>): (r: set<string>)
    ensures forall f :: f in r <==> f in files && EndsWith(f, ".md") && f != SummaryFile
  {
    set f | f in files && EndsWith(f, ".md") && f != SummaryFile
  }

  /** The message of the `ValueError` for a folder without summaries. */
  function NoSummaries(folderPath: string): (r: string)
    ensures StartsWith(r, "No blog summaries found in ") && EndsWith(r, folderPath)
  {
    "No blog summaries found in " + folderPath
  }

  /** `summarize` as a step: no candidate file stops first (before the
      prompt check and without a call); then a missing prompt file; then the
      one call, whose failure is reported; on success the folder's
      `summary.md` (possibly just written by the call) is preferred over
      standard output. */
  function SummarizeStep(prompt: Option<string>, folderPath: string, files: map<string, string>,
                         respond: (nat, string) -> ToolReply, requests: seq<string>)
    : (s: Step<string>)
    ensures Candidates(files) == {} ==> s == Step(Err(NoSummaries(folderPath)), files, requests)
    ensures Candidates(files) != {} && prompt.None? ==>
      s == Step(Err(PromptNotFound(SummaryPromptPath)), files, requests)
    ensures Candidates(files) != {} && prompt.Some? ==>
      var reply := respond(|requests|, FolderPrompt(prompt.value, folderPath));
      && s.requests == requests + [FolderPrompt(prompt.value, folderPath)]
      && s.files == LeftBehind(files, reply)
      && s.result == match reply
        case Raised(message) => Err(message)
        case Exited(code, stdout, stderr, _) =>
          if code != 0 then Err(ExecutionFailed(stderr)) else Ok(Chosen(s.files, stdout))
  {
    if Candidates(files) == {} then Step(Err(NoSummaries(folderPath)), files, requests)
    else if prompt.None? then Step(Err(PromptNotFound(SummaryPromptPath)), files, requests)
    else
      var full := FolderPrompt(prompt.value, folderPath);
      var reply := respond(|requests|, full);
      var after := LeftBehind(files, reply);
      match reply
      case Raised(message) => Step(Err(message), after, requests + [full])
      case Exited(code, stdout, stderr, _) =>
        if code != 0 then Step(Err(ExecutionFailed(stderr)), after, requests + [full])
        else Step(Ok(Chosen(after, stdout)), after, requests + [full])
  }

  /** The summarizer, configured with its prompt file (`None` when the file
      does not exist). */
  class Summarizer {
    const prompt: Option<string>

    constructor (prompt: Option<string>)
      ensures this.prompt == prompt
    {
      this.prompt := prompt;
    }

    /** `summarize`: does what `SummarizeStep` describes to the folder and
        the assistant. */
    method Summarize(folderPath: string, folder: Directory, tool: ExternalTool) returns (r: Result<string, string>)
      modifies folder, tool
      ensures var s := SummarizeStep(prompt, folderPath, old(folder.files), tool.respond, old(tool.requests));
        r == s.result && folder.files == s.files && tool.requests == s.requests
    {
      if Candidates(folder.files) == {} {
        return Err(NoSummaries(folderPath));
      }
      if prompt.None? {
        return Err(PromptNotFound(SummaryPromptPath));
      }
      var reply := tool.Run(FolderPrompt(prompt.value, folderPath));
      folder.Absorb(reply);
      match reply
      case Raised(message) =>
        r := Err(message);
      case Exited(code, stdout, stderr, _) =>
        if code != 0 {
          r := Err(ExecutionFailed(stderr));
        } else if SummaryFile in folder.files {
          r := Ok(folder.files[SummaryFile]);
        } else {
          r := Ok(stdout);
        }
    }
  }

  /** The summary written by the call wins over standard output; with no
      summary written and none left from before, standard output is
      returned exactly as printed. */
  lemma SummaryFilePreferred(files: map<string, string>, code: int, stdout: string, stderr: string, written: Option<string>)
    ensures written.Some? ==>
      Chosen(LeftBehind(files, Exited(code, stdout, stderr, written)), stdout) == written.value
    ensures written.None? && SummaryFile !in files ==>
      Chosen(LeftBehind(files, Exited(code, stdout, stderr, written)), stdout) == stdout
  {
  }

  /** `summary.md` never counts as a candidate, so a folder holding only a
      summary has none; a folder with one per-blog file has one. */
  lemma CandidatesExamples(summary: string, post: string)
    ensures Candidates(map[SummaryFile := summary]) == {}
    ensures Candidates(map["example.com_blog.md" := post]) == {"example.com_blog.md"}
  {
    var one := "example.com_blog.md";
    assert EndsWith(one, ".md") by {
      assert one[|one| - 3..] == ".md";
    }
  }
}
