/** The newsletter pipeline: the week's e-mails are written into the week
    folder as numbered Markdown files beside a metadata file, one analysis
    call of the external assistant reads the folder, and its `summary.md`
    (or, failing that, its standard output) is the digest text. */
module NewsletterProcessor {
  import opened Wrappers
  import opened Text
  import opened Workspace
  import opened EmailConverter

  const BaseDir: string := "newsletters"
  const MetadataFile: string := "_metadata.json"
  const AnalysisPromptPath: string := ".claude/prompts/newsletter_analysis_prompt.md"
  const NoNewsletters: string := "No newsletters received this week."

  /** `analyze_newsletters` as a step: a missing prompt file stops before
      the call; otherwise one call over the folder, whose raised error or
      nonzero exit becomes the error, and whose standard output is the
      result. The call may leave a `summary.md` behind. */
  function AnalyzeStep(prompt: Option<string>, folderPath: string, files: map<string, string>,
                       respond: (nat, string) -> ToolReply, requests: seq<string>): (s: Step<string>)
    ensures prompt.None? ==> s == Step(Err(PromptNotFound(AnalysisPromptPath)), files, requests)
    ensures prompt.Some? ==>
      var reply := respond(|requests|, FolderPrompt(prompt.value, folderPath));
      && s.requests == requests + [FolderPrompt(prompt.value, folderPath)]
      && s.files == LeftBehind(files, reply)
      && s.result == match reply
        case Raised(message) => Err(message)
        case Exited(code, stdout, stderr, _) => if code != 0 then Err(ExecutionFailed(stderr)) else Ok(stdout)
  {
    if prompt.None? then Step(Err(PromptNotFound(AnalysisPromptPath)), files, requests)
    else
      var full := FolderPrompt(prompt.value, folderPath);
      var reply := respond(|requests|, full);
      var result := match reply
        case Raised(message) => Err(message)
        case Exited(code, stdout, stderr, _) => if code != 0 then Err(ExecutionFailed(stderr)) else Ok(stdout);
      Step(result, LeftBehind(files, reply), requests + [full])
  }

  /** The lines of `json.dumps(metadata, indent=2)` for the four keys in
      insertion order; `processedAt` is the ISO timestamp text. */
  function MetadataLines(processedAt: string, count: nat, week: int, year: int): (r: seq<string>)
    ensures |r| == 6 && r[0] == "{" && r[5] == "}"
  {
    ["{",
     "  \"processed_at\": \"" + processedAt + "\",",
     "  \"email_count\": " + IntToString(count) + ",",
     "  \"week\": " + IntToString(week) + ",",
     "  \"year\": " + IntToString(year),
     "}"]
  }

  /** The metadata file's text: its lines joined by newlines, with no
      newline after the closing brace. */
  function MetadataJson(processedAt: string, count: nat, week: int, year: int): string {
    JoinWith(MetadataLines(processedAt, count, week, year), '\n')
  }

  /** The count can be read back from the metadata: its third line holds
      the e-mail count and nothing else between the key and the comma. */
  lemma MetadataCountReadsBack(processedAt: string, count: nat, week: int, year: int)
    requires '\n' !in processedAt
    ensures var lines := Split(MetadataJson(processedAt, count, week, year), '\n');
      |lines| == 6 && StartsWith(lines[2], "  \"email_count\": ") && EndsWith(lines[2], ",") && |lines[2]| >= 18
      && ParseInt(lines[2][17..|lines[2]| - 1]) == Some(count)
  {
    var lines := MetadataLines(processedAt, count, week, year);
    assert Split(MetadataJson(processedAt, count, week, year), '\n') == lines by {
      MetadataLinesUnbroken(processedAt, count, week, year);
      JoinSplit(lines, '\n');
    }
    CountLine("  \"email_count\": ", IntToString(count), lines[2]);
    IntToStringRoundTrip(count);
  }

  /** A line made of a 17-character key, a number and a comma. */
  lemma CountLine(key: string, number: string, line: string)
    requires |key| == 17 && line == key + number + ","
    ensures StartsWith(line, key) && EndsWith(line, ",") && |line| >= 18 && line[17..|line| - 1] == number
  {
    assert line[..17] == key;
  }

  lemma MetadataLinesUnbroken(processedAt: string, count: nat, week: int, year: int)
    requires '\n' !in processedAt
    ensures var lines := MetadataLines(processedAt, count, week, year);
      forall k :: 0 <= k < |lines| ==> '\n' !in lines[k]
  {
    NoNewlineInDecimal(count);
    NoNewlineInDecimal(week);
    NoNewlineInDecimal(year);
    NoNewlineAround("  \"processed_at\": \"", processedAt, "\",");
    NoNewlineAround("  \"email_count\": ", IntToString(count), ",");
    NoNewlineAround("  \"week\": ", IntToString(week), ",");
    NoNewlineAround("  \"year\": ", IntToString(year), "");
    assert "  \"year\": " + IntToString(year) + "" == "  \"year\": " + IntToString(year);
  }

  lemma NoNewlineAround(before: string, s: string, after: string)
    requires '\n' !in before && '\n' !in s && '\n' !in after
    ensures '\n' !in before + s + after
  {
  }

  lemma NoNewlineInDecimal(n: int)
    ensures '\n' !in IntToString(n)
  {
    var s := IntToString(n);
    if n < 0 {
      assert s == "-" + NatToString(-n);
    }
    assert forall k :: 0 <= k < |s| ==> s[k] == '-' || IsDigit(s[k]);
  }

  /** The folder after writing `contents[i]` under `names[i]`, in order. */
  function WriteEach(files: map<string, string>, names: seq<string>, contents: seq<string>): map<string, string>
    requires |names| == |contents|
    decreases |names|
  {
    if names == [] then files
    else
      var n := |names|;
      WriteEach(files, names[..n - 1], contents[..n - 1])[names[n - 1] := contents[n - 1]]
  }

  /** Writing one more file extends the previous folder by that file. */
  lemma WriteEachSnoc(files: map<string, string>, names: seq<string>, contents: seq<string>, i: nat)
    requires |names| == |contents| && i < |names|
    ensures WriteEach(files, names[..i + 1], contents[..i + 1])
      == WriteEach(files, names[..i], contents[..i])[names[i] := contents[i]]
  {
    assert names[..i + 1][..i] == names[..i] && contents[..i + 1][..i] == contents[..i];
  }

  /** The folder after one more write of the loop. */
  lemma WriteEachStep(files: map<string, string>, names: seq<string>, contents: seq<string>, i: nat,
                      before: map<string, string>, after: map<string, string>)
    requires |names| == |contents| && i < |names|
    requires before == WriteEach(files, names[..i], contents[..i]) && after == before[names[i] := contents[i]]
    ensures after == WriteEach(files, names[..i + 1], contents[..i + 1])
  {
    WriteEachSnoc(files, names, contents, i);
  }

  predicate Distinct(names: seq<string>) {
    forall i, j :: 0 <= i < j < |names| ==> names[i] != names[j]
  }

  /** With distinct names, every file written keeps its own content. */
  lemma {:induction false} WriteEachSaved(files: map<string, string>, names: seq<string>, contents: seq<string>)
    requires |names| == |contents| && Distinct(names)
    ensures forall i :: 0 <= i < |names| ==>
      names[i] in WriteEach(files, names, contents) && WriteEach(files, names, contents)[names[i]] == contents[i]
    decreases |names|
  {
    if names != [] {
      var n := |names|;
      var initNames, initContents := names[..n - 1], contents[..n - 1];
      WriteEachSaved(files, initNames, initContents);
      forall i | 0 <= i < n - 1
        ensures initNames[i] == names[i] && initContents[i] == contents[i] && names[i] != names[n - 1]
      {
      }
    }
  }

  /** The e-mails' file names: index `i` gets sequence number `i + 1`. */
  function Names(emails: seq<EmailData>): (r: seq<string>)
    ensures |r| == |emails|
    ensures forall i :: 0 <= i < |emails| ==> r[i] == GenerateFilename(emails[i], i + 1)
  {
    seq(|emails|, i requires 0 <= i < |emails| => GenerateFilename(emails[i], i + 1))
  }

  /** The e-mails' Markdown texts. */
  function Markdowns(emails: seq<EmailData>, htmlToMarkdown: string -> string): (r: seq<string>)
    ensures |r| == |emails|
    ensures forall i :: 0 <= i < |emails| ==> r[i] == ToMarkdown(emails[i], htmlToMarkdown)
  {
    seq(|emails|, i requires 0 <= i < |emails| => ToMarkdown(emails[i], htmlToMarkdown))
  }

  /** Distinct sequence numbers give distinct file names. */
  lemma NamesDistinct(emails: seq<EmailData>)
    ensures Distinct(Names(emails))
  {
    var names := Names(emails);
    forall i, j | 0 <= i < j < |names|
      ensures names[i] != names[j]
    {
      assert names[i] == GenerateFilename(emails[i], i + 1) && names[j] == GenerateFilename(emails[j], j + 1);
      FilenamesDistinct(emails[i], i + 1, emails[j], j + 1);
    }
  }

  /** The folder after writing the e-mails in order, each under its name. */
  function WriteAll(files: map<string, string>, emails: seq<EmailData>, htmlToMarkdown: string -> string)
    : map<string, string>
  {
    WriteEach(files, Names(emails), Markdowns(emails, htmlToMarkdown))
  }

  /** Every e-mail's file holds that e-mail's Markdown. */
  predicate AllSaved(folder: map<string, string>, emails: seq<EmailData>, htmlToMarkdown: string -> string) {
    forall i :: 0 <= i < |emails| ==>
      GenerateFilename(emails[i], i + 1) in folder && folder[GenerateFilename(emails[i], i + 1)] == ToMarkdown(emails[i], htmlToMarkdown)
  }

  /** Every e-mail ends up in the folder under its own name with its own
      Markdown: distinct sequence numbers give distinct names, so no
      e-mail's file is overwritten by a later one. */
  lemma EveryEmailSaved(files: map<string, string>, emails: seq<EmailData>, htmlToMarkdown: string -> string)
    ensures AllSaved(WriteAll(files, emails, htmlToMarkdown), emails, htmlToMarkdown)
  {
    NamesDistinct(emails);
    WriteEachSaved(files, Names(emails), Markdowns(emails, htmlToMarkdown));
  }

  /** Files whose names are not written keep their content. */
  lemma {:induction false} OtherFilesKept(files: map<string, string>, names: seq<string>, contents: seq<string>, name: string)
    requires |names| == |contents| && name in files && name !in names
    ensures name in WriteEach(files, names, contents) && WriteEach(files, names, contents)[name] == files[name]
    decreases |names|
  {
    if names != [] {
      var n := |names|;
      assert name !in names[..n - 1] && name != names[n - 1];
      OtherFilesKept(files, names[..n - 1], contents[..n - 1], name);
    }
  }

  /** An e-mail's file name starts with a digit, so it is never the
      metadata file or `summary.md`. */
  lemma EmailNamesAreNotReserved(e: EmailData, k: nat)
    ensures GenerateFilename(e, k) != MetadataFile && GenerateFilename(e, k) != SummaryFile
  {
    var f := GenerateFilename(e, k);
    PadIntDigits(k, 3);
    assert f[0] == PadInt(k, 3)[0];
    assert IsDigit(f[0]);
  }

  /** The newsletter pipeline, with its HTML converter and its analysis
      prompt file (`None` when absent). */
  class Processor {
    const htmlToMarkdown: string -> string
    const analysisPrompt: Option<string>

    constructor (htmlToMarkdown: string -> string, analysisPrompt: Option<string>)
      ensures this.htmlToMarkdown == htmlToMarkdown && this.analysisPrompt == analysisPrompt
    {
      this.htmlToMarkdown := htmlToMarkdown;
      this.analysisPrompt := analysisPrompt;
    }

    /** `process` for ISO week number `week` and calendar year `year`. `fetched` is what fetching
        the week's e-mails gave (the text of its exception on failure),
        `processedAt` the current time as ISO text, and `folder` the week
        folder. */
    method Process(fetched: Result<seq<EmailData>, string>, week: int, year: int, processedAt: string,
                   folder: Directory, tool: ExternalTool) returns (report: RunReport)
      modifies folder, tool
      ensures fetched.Err? ==>
        report == Failure(fetched.error) && folder.files == old(folder.files) && tool.requests == old(tool.requests)
      ensures fetched == Ok([]) ==>
        report == RunReport(true, 0, None, Some(NoNewsletters), None)
        && folder.files == old(folder.files) && tool.requests == old(tool.requests)
      ensures fetched.Ok? && fetched.value != [] ==>
        var emails := fetched.value;
        var path := WeekFolder(BaseDir, week, year);
        var s := AnalyzeStep(analysisPrompt, path, Written(old(folder.files), emails, htmlToMarkdown, processedAt, week, year),
                             tool.respond, old(tool.requests));
        && folder.files == s.files && tool.requests == s.requests
        && report == match s.result
          case Err(message) => Failure(message)
          case Ok(stdout) => RunReport(true, |emails|, Some(path), Some(Chosen(s.files, stdout)), None)
    {
      if fetched.Err? {
        return Failure(fetched.error);
      }
      var emails := fetched.value;
      if emails == [] {
        return RunReport(true, 0, None, Some(NoNewsletters), None);
      }
      var path := WeekFolder(BaseDir, week, year);
      SaveAll(emails, processedAt, week, year, folder);
      var analysis := Analyze(path, folder, tool);
      match analysis
      case Err(message) =>
        report := Failure(message);
      case Ok(stdout) =>
        var summary := if SummaryFile in folder.files then folder.files[SummaryFile] else stdout;
        report := RunReport(true, |emails|, Some(path), Some(summary), None);
    }

    /** The e-mails, then the metadata file, written into the folder. */
    method SaveAll(emails: seq<EmailData>, processedAt: string, week: int, year: int, folder: Directory)
      modifies folder
      ensures folder.files == Written(old(folder.files), emails, htmlToMarkdown, processedAt, week, year)
    {
      SaveEmails(emails, folder);
      folder.Write(MetadataFile, MetadataJson(processedAt, |emails|, week, year));
    }

    /** The loop saving each e-mail as Markdown, numbered from 1. */
    method SaveEmails(emails: seq<EmailData>, folder: Directory)
      modifies folder
      ensures folder.files == WriteAll(old(folder.files), emails, htmlToMarkdown)
    {
      ghost var start := folder.files;
      ghost var names, contents := Names(emails), Markdowns(emails, htmlToMarkdown);
      var i := 0;
      while i < |emails|
        invariant 0 <= i <= |emails|
        invariant folder.files == WriteEach(start, names[..i], contents[..i])
      {
        var name, content := FileFor(emails, i);
        ghost var before := folder.files;
        folder.Write(name, content);
        WriteEachStep(start, names, contents, i, before, folder.files);
        i := i + 1;
      }
      assert names[..i] == names && contents[..i] == contents;
    }

    /** The name and the Markdown of the `i`-th e-mail, numbered `i + 1`. */
    method FileFor(emails: seq<EmailData>, i: nat) returns (name: string, content: string)
      requires i < |emails|
      ensures name == Names(emails)[i] && content == Markdowns(emails, htmlToMarkdown)[i]
    {
      name, content := GenerateFilename(emails[i], i + 1), ToMarkdown(emails[i], htmlToMarkdown);
    }

    /** `analyze_newsletters`: does what `AnalyzeStep` describes. */
    method Analyze(folderPath: string, folder: Directory, tool: ExternalTool) returns (r: Result<string, string>)
      modifies folder, tool
      ensures var s := AnalyzeStep(analysisPrompt, folderPath, old(folder.files), tool.respond, old(tool.requests));
        r == s.result && folder.files == s.files && tool.requests == s.requests
    {
      if analysisPrompt.None? {
        return Err(PromptNotFound(AnalysisPromptPath));
      }
      var reply := tool.Run(FolderPrompt(analysisPrompt.value, folderPath));
      folder.Absorb(reply);
      match reply
      case Raised(message) =>
        r := Err(message);
      case Exited(code, stdout, stderr, _) =>
        r := if code != 0 then Err(ExecutionFailed(stderr)) else Ok(stdout);
    }
  }

  /** On success the analysis ran exactly once, and the folder holds every
      e-mail's Markdown under its numbered name and the metadata file. */
  lemma SuccessfulRunKeepsEverything(prompt: Option<string>, files: map<string, string>, emails: seq<EmailData>,
                                     htmlToMarkdown: string -> string, processedAt: string, week: int, year: int,
                                     respond: (nat, string) -> ToolReply, requests: seq<string>)
    requires AnalyzeStep(prompt, WeekFolder(BaseDir, week, year), Written(files, emails, htmlToMarkdown, processedAt, week, year),
                         respond, requests).result.Ok?
    ensures var s := AnalyzeStep(prompt, WeekFolder(BaseDir, week, year), Written(files, emails, htmlToMarkdown, processedAt, week, year),
                                 respond, requests);
      && prompt.Some? && |s.requests| == |requests| + 1
      && MetadataFile in s.files && s.files[MetadataFile] == MetadataJson(processedAt, |emails|, week, year)
      && AllSaved(s.files, emails, htmlToMarkdown)
  {
    var written := Written(files, emails, htmlToMarkdown, processedAt, week, year);
    EveryEmailSaved(files, emails, htmlToMarkdown);
    SavedAfterReservedWrite(WriteAll(files, emails, htmlToMarkdown), emails, htmlToMarkdown,
                            MetadataFile, MetadataJson(processedAt, |emails|, week, year));
    var s := AnalyzeStep(prompt, WeekFolder(BaseDir, week, year), written, respond, requests);
    var reply := respond(|requests|, FolderPrompt(prompt.value, WeekFolder(BaseDir, week, year)));
    if reply.Exited? && reply.leavesSummary.Some? {
      SavedAfterReservedWrite(written, emails, htmlToMarkdown, SummaryFile, reply.leavesSummary.value);
    }
  }

  /** Writing the metadata file or `summary.md` overwrites no e-mail. */
  lemma SavedAfterReservedWrite(folder: map<string, string>, emails: seq<EmailData>, htmlToMarkdown: string -> string,
                                name: string, content: string)
    requires AllSaved(folder, emails, htmlToMarkdown)
    requires name == MetadataFile || name == SummaryFile
    ensures AllSaved(folder[name := content], emails, htmlToMarkdown)
  {
    var after := folder[name := content];
    forall i | 0 <= i < |emails|
      ensures GenerateFilename(emails[i], i + 1) in after
      ensures after[GenerateFilename(emails[i], i + 1)] == ToMarkdown(emails[i], htmlToMarkdown)
    {
      var f := GenerateFilename(emails[i], i + 1);
      EmailNamesAreNotReserved(emails[i], i + 1);
      KeptByOtherWrite(folder, f, name, content);
    }
  }

  lemma KeptByOtherWrite(folder: map<string, string>, f: string, name: string, content: string)
    requires f in folder && f != name
    ensures f in folder[name := content] && folder[name := content][f] == folder[f]
  {
  }

  /** The folder just before the analysis: the e-mails, then the metadata. */
  function Written(files: map<string, string>, emails: seq<EmailData>, htmlToMarkdown: string -> string,
                   processedAt: string, week: int, year: int): map<string, string>
  {
    WriteAll(files, emails, htmlToMarkdown)[MetadataFile := MetadataJson(processedAt, |emails|, week, year)]
  }
}
