/** What the digest pipelines see of the outside world: the run folder on
    disk, the external command-line assistant they call, and the result
    record that both pipelines hand to their scheduler. */
module Workspace {
  import opened Wrappers
  import opened Text

  /** The outcome of one call of the external assistant: it exited with a
      return code and its captured output, possibly leaving a `summary.md`
      behind in the run folder; or the call itself raised (a timeout, a
      missing executable). */
  datatype ToolReply =
    | Exited(returnCode: int, stdout: string, stderr: string, leavesSummary: Option<string>)
    | Raised(message: string)

  /** The external assistant. Its behaviour is an input: `respond` gives the
      reply to the k-th call (counting from 0) with a given prompt. Every
      call is recorded in `requests`, oldest first. */
  class ExternalTool {
    var requests: seq<string>
    const respond: (nat, string) -> ToolReply

    constructor (respond: (nat, string) -> ToolReply)
      ensures this.respond == respond && requests == []
    {
      this.respond := respond;
      requests := [];
    }

    /** One call: recorded, and answered as `respond` says. */
    method Run(prompt: string) returns (reply: ToolReply)
      modifies this
      ensures requests == old(requests) + [prompt]
      ensures reply == respond(|old(requests)|, prompt)
    {
      reply := respond(|requests|, prompt);
      requests := requests + [prompt];
    }
  }

  /** A directory: file name to file content. */
  class Directory {
    var files: map<string, string>

    constructor (files: map<string, string>)
      ensures this.files == files
    {
      this.files := files;
    }

    /** `Path.write_text`: creates or replaces one file and nothing else. */
    method Write(name: string, content: string)
      modifies this
      ensures files == old(files)[name := content]
    {
      files := files[name := content];
    }

    /** What an assistant call leaves in the folder: a `summary.md` when its
        reply says so, otherwise nothing. */
    method Absorb(reply: ToolReply)
      modifies this
      ensures files == LeftBehind(old(files), reply)
    {
      if reply.Exited? && reply.leavesSummary.Some? {
        files := files[SummaryFile := reply.leavesSummary.value];
      }
    }
  }

  const SummaryFile: string := "summary.md"

  /** The folder after an assistant call. */
  function LeftBehind(files: map<string, string>, reply: ToolReply): (r: map<string, string>)
    ensures reply.Exited? && reply.leavesSummary.Some? ==>
      r == files[SummaryFile := reply.leavesSummary.value]
    ensures !(reply.Exited? && reply.leavesSummary.Some?) ==> r == files
  {
    if reply.Exited? && reply.leavesSummary.Some? then files[SummaryFile := reply.leavesSummary.value]
    else files
  }

  /** The prompt of a call over a whole folder: the base prompt, a rule,
      and the folder to read. */
  function FolderPrompt(base: string, folderPath: string): (r: string)
    ensures StartsWith(r, base) && EndsWith(r, folderPath + "/")
  {
    var tail := "\n\n---\n\nAnalizuj pliki w folderze: " + folderPath + "/";
    assert (base + tail)[..|base|] == base;
    assert (base + tail)[|base + tail| - |folderPath + "/"|..] == folderPath + "/";
    base + tail
  }

  /** The text returned after a successful call: `summary.md` when the
      folder has one, the standard output verbatim otherwise. */
  function Chosen(files: map<string, string>, stdout: string): (r: string)
    ensures SummaryFile in files ==> r == files[SummaryFile]
    ensures SummaryFile !in files ==> r == stdout
  {
    if SummaryFile in files then files[SummaryFile] else stdout
  }

  /** The message of the exception raised on a nonzero exit. */
  function ExecutionFailed(stderr: string): (r: string)
    ensures StartsWith(r, "Claude execution failed: ") && EndsWith(r, stderr)
  {
    "Claude execution failed: " + stderr
  }

  /** The message of the `FileNotFoundError` for a missing prompt file. */
  function PromptNotFound(path: string): (r: string)
    ensures StartsWith(r, "Prompt file not found: ") && EndsWith(r, path)
  {
    "Prompt file not found: " + path
  }

  /** The week folder name `f"{week:02d}_{year}"` under `base`. */
  function WeekFolder(base: string, week: int, year: int): (r: string)
    ensures |r| > |base| && r[..|base| + 1] == base + "/"
  {
    base + "/" + PadInt(week, 2) + "_" + IntToString(year)
  }

  /** For an ISO week number (1 to 53) the folder's own name is two digits,
      an underscore and the year. */
  lemma WeekFolderName(base: string, week: int, year: int)
    requires 1 <= week <= 53 && year >= 1
    ensures WeekFolder(base, week, year)[|base| + 1..]
      == [DigitChar(week / 10), DigitChar(week % 10), '_'] + NatToString(year)
  {
    WeekPadding(week);
    var r := WeekFolder(base, week, year);
    assert r == base + ("/" + ([DigitChar(week / 10), DigitChar(week % 10), '_'] + NatToString(year)));
  }

  /** A week number below 100 is written with exactly two digits. */
  lemma WeekPadding(week: int)
    requires 1 <= week <= 99
    ensures PadInt(week, 2) == [DigitChar(week / 10), DigitChar(week % 10)]
  {
    if week < 10 {
      assert NatToString(week) == [DigitChar(week)];
      assert seq(1, _ => '0') == ['0'];
    } else {
      assert NatToString(week / 10) == [DigitChar(week / 10)];
      assert NatToString(week) == [DigitChar(week / 10), DigitChar(week % 10)];
    }
  }

  /** What a step that calls the assistant did: its result (`Err` carries
      the text of the exception it raised), the folder afterwards, and the
      assistant's call log afterwards. */
  datatype Step<T> = Step(result: Result<T, string>, files: map<string, string>, requests: seq<string>)

  /** The record a pipeline returns: `success`, the item count
      (`email_count` or `blog_count`), `folder`, `summary`, and `error`
      (present only on failure). */
  datatype RunReport = RunReport(
    success: bool,
    count: nat,
    folder: Option<string>,
    summary: Option<string>,
    error: Option<string>)

  /** The one shape every failure takes: no count, no folder, no summary,
      and the exception text. */
  function Failure(message: string): (r: RunReport)
    ensures !r.success && r.count == 0 && r.folder.None? && r.summary.None?
    ensures r.error == Some(message)
  {
    RunReport(false, 0, None, None, Some(message))
  }
}
