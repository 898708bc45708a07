# frank — a verified model of the assistant's deterministic core

frank is a personal assistant. Two weekly digest pipelines, one for
newsletters and one for tech blogs, collect material, ask an external
command-line assistant to summarise it and deliver the summary to a chat
user. Next to them sits a small food log: a Markdown food database, a tool
that looks foods up and appends rows to a daily log, and an endpoint that
totals the day's rows. This project models the rules under that plumbing
and proves what they promise.

Modules, one per component (all files sit directly in this directory):

- `Wrappers` (`wrappers.dfy`): `Option` and `Result`.
- `Text` (`text.dfy`): the Python string operations the code relies on.
  These are `lower`, `strip`, `split`/`join`, `int()`, the float-literal
  check of `float()` and zero-padded integer printing, each with its
  round-trip lemmas.
- `Formatter` (`formatter.dfy`): cutting a reply into chat-sized chunks,
  and deleting ANSI escape sequences. The escapes are the two-character
  form of section 5.3 of ECMA-48 and the control sequences of its
  section 5.4.
- `Session` (`session.dfy`): the process-wide map from chat user to
  assistant session, as a class with `Get`, `Save` and `Clear`.
- `Schedule` (`schedule.dfy`): the next weekly run time. A datetime is a
  proleptic Gregorian day number (day 1 is Monday 1 January of year 1)
  plus hour, minute, second and microsecond.
- `Digest` (`digest.dfy`): how both schedulers turn a pipeline result into
  chat messages and send them. The chat connection is a class with an
  append-only log of `(user, text)` pairs and a scripted outcome per send
  attempt.
- `Workspace` (`workspace.dfy`): the run folder (a class over a map from
  file name to content), the external assistant (a class that records
  every prompt and answers through a reply function), the shared result
  record and the week folder name.
- `BlogRunner`, `BlogSummarizer`, `BlogProcessor`: the blog pipeline. These
  cover the per-blog fetch with its reply classification and URL-to-file
  naming, the folder summary, and the per-source loop.
- `NewsletterProcessor`, `EmailConverter`: the newsletter pipeline. These
  cover the saving loop, the metadata file and the analysis step, plus the
  front matter and the file name of each e-mail.
- `MarkdownParser`, `FoodTool`, `Api`: the food log. These cover the
  database loader and lookup, the lookup-and-log tool, the nutrition
  totals of a daily log and the chat endpoint's fold of the reply stream.
  `Api.TallyAfterLog` ties the food tool to the totals: logging entries
  raises the day's totals by exactly those entries.
- `FoodTableExample` (`food_table_example.dfy`): the sample food table of
  the parser's unit tests, loaded row by row.

Code that changes state in the source is modelled as classes with
`modifies` clauses. Each such method is proved against a specification
function, and the lemmas are stated about that function. This covers the
session map, the folder, the assistant's call log, the chat log, the
parser's dictionary and the daily log. Loops become `while` or `for` loops
with invariants: chunking, sending, the per-source and per-e-mail loops, the
loader and the tally.

## Model

| member | source | states |
|---|---|---|
| Formatter.SplitLongMessage | src/formatter.py:13-23 | the chunk loop produces exactly the chunk list of the specification function `Split`; a text within the limit comes back as a single chunk |
| Formatter.SlicesStep | src/formatter.py:19-21 | one loop round takes the first `max_length` characters (or all that remain) and continues on the rest |
| Formatter.SlicesConcat | src/formatter.py:19-21 | the slices of a text, concatenated in order, are the text |
| Formatter.SlicesBounds | src/formatter.py:19-21 | every slice is non-empty and at most `max_length` long, and every slice but the last is exactly `max_length` long |
| Formatter.SlicesCount | src/formatter.py:19-21 | the number of slices is the length divided by `max_length`, rounded up |
| Formatter.SplitConcat | src/formatter.py:13-23 | splitting loses and reorders nothing: joining the chunks gives the message back |
| Formatter.SplitShape | src/formatter.py:13-23 | no chunk comes back exactly for the empty text with a negative limit, and at least one otherwise; none is longer than the limit; a non-empty message over the limit gives non-empty chunks, all full but the last, ceiling(length / limit) of them |
| Formatter.SplitFiveThousand | tests/test_formatter.py:23-28 | 5000 characters at limit 4096 give two chunks, of 4096 and 904 characters |
| Formatter.EscapeLength | src/formatter.py:9 | a recognised escape sequence starts with ESC and has at least two characters, all within the text |
| Formatter.RemoveAnsiCodes | src/formatter.py:7-10 | the result is never longer than the input, and a text without ESC is returned unchanged |
| Formatter.RemoveAnsiCodesDeletesOnly | src/formatter.py:7-10 | the cleaned text is a subsequence of the input: characters are only deleted, never added or reordered |
| Formatter.FeEscapeRemoved | src/formatter.py:9 | a two-character escape `ESC` + a byte in `@`..`Z`, `\`..`_` is deleted |
| Formatter.ControlSequenceRemoved | src/formatter.py:9 | a control sequence `ESC [` parameters, intermediates, final byte is deleted in full |
| Formatter.ResetRemoved | src/formatter.py:9 | the reset code `ESC[0m` is deleted and the plain text after it kept |
| Formatter.ColouredWord | src/formatter.py:7-10 | a word wrapped in a colour code and a reset comes out as the bare word |
| Formatter.RemoveColourCodes | tests/test_formatter.py:5-8 | the coloured sample text comes out as `Red text normal text` |
| Formatter.PlainPrefix | tests/test_formatter.py:11-14 | text without ESC passes through unchanged, and cleaning distributes over a plain prefix |
| Session.Lookup | src/session.py:22-27 | a session is found exactly when the user has one stored, and it is the stored one |
| Session.Apply | src/session.py:30-54 | saving adds the user's key and clearing removes it; every other user's session is untouched |
| Session.LastWord | src/session.py:30-54 | there is no last update for a user exactly when no update in the history names that user |
| Session.ReplaySnoc | src/session.py:30-54 | replaying a history one update longer is applying that update to the replay of the shorter history |
| Session.ReplayLookup | src/session.py:12-54 | after any history of saves and clears, a user's session is whatever the last update naming that user left (the saved id, or none after a clear), or the starting value when no update named the user |
| Session.NeverSavedIsAbsent | src/session.py:12-27 | a user never named in the history has no session |
| Session.SessionStore.constructor | src/session.py:9 | the store starts empty |
| Session.SessionStore.Get | src/session.py:12-27 | returns the stored session exactly when there is one, and nothing otherwise |
| Session.SessionStore.Save | src/session.py:30-39 | afterwards the user's session is the new one and no other user's session changed |
| Session.SessionStore.Clear | src/session.py:42-54 | afterwards the user has no session, no other user's session changed, and clearing an absent user changes nothing |
| Schedule.TimeOfDay | src/newsletter/scheduler.py:49 | the time of day lies within one day |
| Schedule.Weekday | src/newsletter/scheduler.py:43 | the weekday is 0 (Monday) to 6 (Sunday) |
| Schedule.DaysAhead | src/newsletter/scheduler.py:42-53 | the offset is never below the plain weekday difference and, for a weekday 0..6, lies in 0..7 |
| Schedule.NextRun | src/newsletter/scheduler.py:32-63 | a run time exists exactly when the configured hour and minute are valid clock values (otherwise `replace` raises); it is the day `DaysAhead` later at the configured hour and minute with zero seconds and microseconds |
| Schedule.SameWeekday | src/newsletter/scheduler.py:42-53 | two different days on the same weekday are at least seven days apart |
| Schedule.LandsOnWeekday | src/newsletter/scheduler.py:42-55 | the next run falls on the configured weekday |
| Schedule.NextRunIsEarliestSlot | src/newsletter/scheduler.py:32-63 | the next run is on the configured weekday, hour and minute, strictly after now, at most seven days ahead, and no earlier matching moment after now exists |
| Schedule.SlotMinuteReachedMeansNextWeek | src/newsletter/scheduler.py:49-50 | on the configured weekday, once the configured hour and minute are reached, the run moves a full week ahead |
| Schedule.NewsletterExamples | tests/newsletter/test_scheduler.py:11-43 | Wednesday 11 Feb 2026 10:00 gives Sunday 15 Feb 20:00; Monday 16 Feb gives Sunday 22 Feb 20:00 |
| Schedule.BlogExamples | src/blog/scheduler.py:33-49 | for the blog slot (Sunday 21:00), Sunday 15 Feb 2026 19:00 gives the same day at 21:00, and 22:00 gives Sunday 22 Feb |
| Workspace.ExternalTool.constructor | src/blog/summarizer.py:44-54 | the assistant starts with no recorded calls and the given behaviour |
| Workspace.ExternalTool.Run | src/blog/summarizer.py:44-54 | the prompt is appended to the record of calls and the reply is the one the assistant gives to that call |
| Workspace.Directory.constructor | src/newsletter/processor.py:60-61 | the folder holds the given files |
| Workspace.Directory.Write | src/newsletter/processor.py:70-71 | writing a file sets that name to the content and leaves every other file as it was |
| Workspace.Directory.Absorb | src/blog/summarizer.py:44-62 | a call that exits and writes `summary.md` leaves that file in the folder; any other reply leaves the folder as it was |
| Workspace.LeftBehind | src/blog/summarizer.py:60-62 | only an exited call that wrote a summary changes the folder, and only at `summary.md` |
| Workspace.FolderPrompt | src/blog/summarizer.py:39-40 | the prompt starts with the base prompt and ends with the folder path and a slash |
| Workspace.Chosen | src/blog/summarizer.py:60-64 | a `summary.md` in the folder wins; without one the assistant's standard output is the summary |
| Workspace.ExecutionFailed | src/blog/summarizer.py:56-58 | the error text starts with `Claude execution failed: ` and ends with the assistant's error output |
| Workspace.PromptNotFound | src/blog/summarizer.py:36-37 | the error text starts with `Prompt file not found: ` and ends with the path |
| Workspace.WeekFolder | src/newsletter/processor.py:57-60 | the week folder lies directly inside the base directory |
| Workspace.WeekFolderName | src/newsletter/processor.py:59 | the folder name is the two-digit week, an underscore and the year |
| Workspace.WeekPadding | src/newsletter/processor.py:59 | a week number 1..99 is printed as exactly two digits, tens then units |
| Workspace.Failure | src/newsletter/processor.py:107-115 | a failed run reports no success, a count of 0, no folder, no summary and the error message |
| Text.Lower | src/utils/markdown_parser.py:67 | lower-casing keeps the length and lowers each letter `A`..`Z`, leaving every other character as it is |
| Text.LowerIdempotent | src/utils/markdown_parser.py:67-83 | lowering a lowered name changes nothing, so a stored key is found by its own name in any case |
| Text.Trim | src/utils/markdown_parser.py:43 | trimming never lengthens a text and leaves no dropped character at either end |
| Text.TrimIsInfix | src/utils/markdown_parser.py:43 | the trimmed text is a contiguous piece of the original |
| Text.Strip | src/utils/markdown_parser.py:43 | `strip()` never lengthens a text and leaves no whitespace at either end |
| Text.StripNoop | src/utils/markdown_parser.py:43 | a text with no whitespace at its ends is unchanged by `strip()` |
| Text.StripPadded | src/utils/markdown_parser.py:43 | whitespace padding on both sides of a word is exactly what `strip()` removes |
| Text.StripSplit | src/utils/markdown_parser.py:43 | every text is its stripped form between two runs of whitespace |
| Text.IndexOf | src/utils/markdown_parser.py:43 | the first position of a character, or the length when it is absent |
| Text.Split | src/utils/markdown_parser.py:37 | `split(sep)` gives at least one piece, and no piece contains the separator |
| Text.SplitJoin | src/utils/markdown_parser.py:37 | joining the pieces of a split with the same separator gives the text back |
| Text.JoinSplit | src/utils/markdown_parser.py:37 | splitting a join of separator-free pieces gives the pieces back |
| Text.SplitTerminated | src/utils/markdown_parser.py:37 | a file of newline-terminated lines splits into those lines and one empty piece after the last newline |
| Text.SplitAfterTerminator | src/utils/markdown_parser.py:37 | splitting text appended after a separator continues the split of the first part: its trailing empty piece is replaced by the pieces of the appended text |
| Text.NatToString | src/newsletter/processor.py:59 | decimal printing gives a non-empty string of digits |
| Text.PadInt | src/newsletter/processor.py:59 | zero-padded printing is at least the requested width |
| Text.IntToStringRoundTrip | src/utils/markdown_parser.py:51 | `int()` reads back every printed integer |
| Text.PadIntRoundTrip | src/newsletter/processor.py:59 | `int()` reads back every zero-padded number, leading zeros included |
| Text.NatToStringInjective | src/newsletter/email_converter.py:54 | different numbers print differently |
| Text.IntTextIsFloatText | src/utils/markdown_parser.py:52-54 | every printed integer is also accepted by `float()` |
| Digest.Header | src/newsletter/scheduler.py:119 | the success header names the number of items |
| Digest.FailedText | src/newsletter/scheduler.py:131 | the failure message ends with the pipeline's error |
| Digest.ErrorText | src/newsletter/scheduler.py:137 | the exception message ends with the exception text |
| Digest.PlanFor | src/newsletter/scheduler.py:111-142 | an exception is answered by one error report; a failed result by the one failure message, `Unknown error` when no error is given; a successful result by messages that together are the header and the summary; a successful result without a summary raises while concatenating and is answered by an error report |
| Digest.Transcript | src/newsletter/scheduler.py:126-142 | the messages the user receives and the number of send attempts; the count of attempts never goes down |
| Digest.Bot.constructor | src/bot.py:1-36 | a chat connection starts with nothing sent and no attempts made |
| Digest.Bot.Send | src/newsletter/scheduler.py:127 | each attempt counts and is answered by the next scripted outcome; only a delivered message reaches the user |
| Digest.To | src/newsletter/scheduler.py:127 | every message goes to the one configured user, one entry per message |
| Digest.ToAppend | src/newsletter/scheduler.py:126-127 | sending two lists of messages in turn is sending their concatenation |
| Digest.TranscriptDelivered | src/newsletter/scheduler.py:126-127 | a delivered message is received and the rest of the list follows |
| Digest.TranscriptRejected | src/newsletter/scheduler.py:135-142 | a failed send stops the list and is answered by one error report |
| Digest.DigestScheduler.constructor | src/newsletter/scheduler.py:15-30 | the scheduler keeps its kind, its user and its chat connection |
| Digest.DigestScheduler.RunDigest | src/newsletter/scheduler.py:91-142 | the user receives exactly what `Transcript` of `PlanFor` the outcome says, and the number of attempts is the one it counts |
| Digest.DigestScheduler.ReportError | src/newsletter/scheduler.py:135-142 | one attempt is made to send the error message; if it fails, nothing else happens |
| Digest.DigestScheduler.SendInOrder | src/newsletter/scheduler.py:126-127 | the messages are sent in order until one fails; what the user receives and the attempts made are those of `Transcript` |
| Digest.DeliveredEnds | src/newsletter/scheduler.py:126-129 | when every send succeeds the user receives every message, one attempt each |
| Digest.RejectedEnds | src/newsletter/scheduler.py:126-142 | a send failing after some delivered messages leaves those messages plus the error report, with two more attempts |
| Digest.TranscriptAfterDelivered | src/newsletter/scheduler.py:126-127 | after a run of delivered sends the remaining messages continue from the next attempt |
| Digest.SuccessDeliversChunks | src/newsletter/scheduler.py:115-127 | when no send fails the user receives the 4096-character chunks of header plus summary, in order |
| Digest.AllDelivered | src/newsletter/scheduler.py:126-127 | with no failures every message arrives, one attempt each |
| Digest.FailureSendsOneMessage | src/newsletter/scheduler.py:130-132 | a failed run sends at most one message, and exactly the failure message when it goes through |
| Digest.TranscriptShape | src/newsletter/scheduler.py:126-142 | what the user receives is always an in-order prefix of the messages, possibly followed by one error report, with at most one attempt more than the messages |
| Digest.BlogDigestNamesCount | tests/blog/test_scheduler.py:27-48 | a successful blog run with 3 blogs and summary `great stuff` sends one message that mentions `3` |
| BlogRunner.FetchPrompt | src/blog/runner.py:36-42 | the per-blog prompt starts with the base prompt and ends with the blog's URL |
| BlogRunner.RemoveSchemes | src/blog/runner.py:78 | deleting `http://` and `https://` never lengthens the URL |
| BlogRunner.SchemeAfterPlainText | src/blog/runner.py:78 | a scheme is deleted wherever it occurs, not only at the start: after text without `:` the scheme goes and the text after it is cleaned in turn |
| BlogRunner.SchemeAtStart | src/blog/runner.py:78 | a leading `http://` or `https://` is deleted and the rest cleaned |
| BlogRunner.NoSchemeBeforeColon | src/blog/runner.py:78 | no scheme match can start inside text without `:` that is followed by `http` |
| BlogRunner.Sanitize | src/blog/runner.py:79 | every character other than a word character or `.` becomes `_`, one for one, and the rest are kept |
| BlogRunner.WithoutUnderscores | src/blog/runner.py:80 | the text with every underscore deleted |
| BlogRunner.CollapseUnderscores | src/blog/runner.py:80 | collapsing underscore runs never lengthens the text and keeps its first character |
| BlogRunner.CollapseUnderscoresMeaning | src/blog/runner.py:80 | after collapsing, no two underscores are adjacent, the non-underscore characters are those of the input in order, and a name made of word characters and dots stays one |
| BlogRunner.UrlToFilename | src/blog/runner.py:76-81 | the file name ends with `.md` |
| BlogRunner.FileStemShape | src/blog/runner.py:76-81 | the stem is made of word characters, dots and single underscores only, has no `/`, and neither starts nor ends with `_`, so the file lands directly in the output folder |
| BlogRunner.InfixShape | src/blog/runner.py:80 | stripping underscores from the ends keeps the stem free of `/` and of double underscores |
| BlogRunner.ExampleFilename | tests/blog/test_runner.py:27-42 | `https://example.com/blog` is saved as `example.com_blog.md`, whose name contains `example.com` |
| BlogRunner.ExampleStem | src/blog/runner.py:78-80 | the stem of `https://example.com/blog` is `example.com_blog` |
| BlogRunner.SchemeExample | src/blog/runner.py:78 | the scheme of `https://example.com/blog` is removed |
| BlogRunner.CollapseExample | src/blog/runner.py:80 | `example.com_blog` has nothing to collapse or strip |
| BlogRunner.SanitizeExample | src/blog/runner.py:79 | the `/` of `example.com/blog` becomes `_` |
| BlogRunner.RemoveSchemesWithoutColon | src/blog/runner.py:78 | a text without `:` has no scheme to remove |
| BlogRunner.CollapseWithoutDouble | src/blog/runner.py:80 | a text with no adjacent underscores is unchanged by collapsing |
| BlogRunner.Classify | src/blog/runner.py:58-66 | a call fails exactly when it raised or exited non-zero (with `Claude execution failed: ` and the error output); it reports no new content exactly when the stripped output contains `NO_NEW_CONTENT`; otherwise the content is the stripped output, which never contains the marker |
| BlogRunner.FetchStep | src/blog/runner.py:20-73 | without the prompt file nothing is called and the error names the prompt path; otherwise exactly one call is made with the per-blog prompt, and its reply decides: a raised call or a nonzero exit gives the failure text and writes nothing; the no-new-content marker gives no path and writes nothing; any other output is written, stripped, to the URL's file name alone, and that path is returned |
| BlogRunner.Runner.constructor | src/blog/runner.py:17-18 | the runner keeps the prompt it was given, or its absence |
| BlogRunner.Runner.FetchBlog | src/blog/runner.py:20-73 | the result, the output folder and the calls made are those `FetchStep` gives |
| BlogSummarizer.Candidates | src/blog/summarizer.py:32 | the posts to summarise are exactly the `.md` files in the folder other than `summary.md` |
| BlogSummarizer.NoSummaries | src/blog/summarizer.py:33-34 | the error text starts with `No blog summaries found in ` and ends with the folder |
| BlogSummarizer.SummarizeStep | src/blog/summarizer.py:17-64 | a folder without posts fails before anything else, and a missing prompt file fails before any call; otherwise exactly one call with the folder prompt is made, a raised or non-zero call fails, and a successful one returns `summary.md` when the call left one and the output otherwise |
| BlogSummarizer.Summarizer.constructor | src/blog/summarizer.py:14-15 | the summarizer keeps the prompt it was given, or its absence |
| BlogSummarizer.Summarizer.Summarize | src/blog/summarizer.py:17-64 | the result, the folder and the calls made are those `SummarizeStep` gives |
| BlogSummarizer.SummaryFilePreferred | tests/blog/test_summarizer.py:10-34 | a `summary.md` written by the call is returned in preference to the output; without one, the output is returned |
| BlogSummarizer.CandidatesExamples | tests/blog/test_summarizer.py:37-40 | a folder holding only `summary.md` has no posts; a folder with one post has exactly that one |
| BlogProcessor.SourcesNotFound | src/blog/processor.py:40-41 | the error text starts with `Blog sources file not found: ` and ends with the path |
| BlogProcessor.MissingKey | src/blog/processor.py:55-62 | a missing key is reported as the key in single quotes, as Python prints a `KeyError` |
| BlogProcessor.FetchOne | src/blog/processor.py:52-62 | once an exception has escaped nothing more happens; a source without `url` escapes the loop with `'url'`; otherwise nothing escapes; a path is added only for a source with both `url` and `name` while the fetch prompt exists, it is the URL's file in the week folder, and it is added exactly when the call's reply is content to save |
| BlogProcessor.FetchAll | src/blog/processor.py:51-62 | when every source has a `url` nothing escapes the loop, and at most one path is saved per source |
| BlogProcessor.ContentReplies | src/blog/processor.py:59-60 | the calls of a run whose reply is content number at most the calls made |
| BlogProcessor.SavedCountIsContentReplies | src/blog/processor.py:51-76 | `blog_count` is the number of calls whose reply is content: a failed call or a no-new-content answer is not counted |
| BlogProcessor.CountStep | src/blog/processor.py:53-60 | one iteration saves one more path exactly when its call replies with content |
| BlogProcessor.Processor.constructor | src/blog/processor.py:19-23 | the processor keeps its sources file and uses `tech-blog-summaries` when no base directory is given |
| BlogProcessor.Processor.FetchSource | src/blog/processor.py:53-60 | one loop iteration does to the folder, the call log and the saved paths what `FetchOne` says |
| BlogProcessor.Processor.Process | src/blog/processor.py:25-89 | a missing or unreadable sources file gives a failed report and touches nothing; an exception escaping the loop gives a failed report; no saved post gives a successful report with count 0 and `No new blog posts this week.`; otherwise the summarizer is run on the week folder and its error becomes a failed report, its summary a successful report counting the saved posts |
| BlogProcessor.FetchAllNext | src/blog/processor.py:52-62 | the loop over one more source is one more `FetchOne` step |
| BlogProcessor.EscapeStays | src/blog/processor.py:81-89 | once an exception has escaped, the remaining sources are not processed |
| BlogProcessor.EscapesIffUrlMissing | src/blog/processor.py:52-62 | an exception escapes the loop exactly when some source lacks `url`, and it is then the `KeyError` for `'url'` |
| BlogProcessor.SavedPathsNameSources | src/blog/processor.py:52-60 | every saved path is the file of some listed source's URL in the week folder |
| BlogProcessor.NamesSourceGrows | src/blog/processor.py:52-60 | a path naming one of the first sources still names one of all the sources |
| BlogProcessor.NoFetchPromptSavesNothing | src/blog/runner.py:33-34 | without the fetch prompt file every fetch raises, which the loop swallows: nothing is saved, written or called |
| BlogProcessor.OneCallPerNamedSource | src/blog/processor.py:52-62 | when every source has a `url`, the assistant is called once per source with a `name`, in the order of the list, and for no other source |
| BlogProcessor.FetchOneRequests | src/blog/processor.py:53-58 | one iteration adds the prompt of its source, if the source has a name, to the call log |
| BlogProcessor.PromptOf | src/blog/runner.py:36-42 | each source leads to at most one prompt |
| BlogProcessor.Prompts | src/blog/processor.py:52-58 | a list of sources leads to at most one prompt per source |
| BlogProcessor.PromptsAppend | src/blog/processor.py:52-58 | the prompts of two lists of sources in turn are those of their concatenation |
| BlogProcessor.PromptsSnoc | src/blog/processor.py:52-58 | one more source adds its own prompt at the end |
| NewsletterProcessor.AnalyzeStep | src/newsletter/claude_runner.py:17-71 | without the prompt file nothing is called; otherwise exactly one call with the folder prompt is made, a raised call fails with its message, a non-zero exit fails with `Claude execution failed: ` and the error output, and a successful call returns its output |
| NewsletterProcessor.MetadataLines | src/newsletter/processor.py:75-83 | the metadata file is a JSON object of six lines, opened by `{` and closed by `}` |
| NewsletterProcessor.MetadataCountReadsBack | src/newsletter/processor.py:75-83 | the third line of `_metadata.json` is the `email_count` entry, and the number on it reads back as the number of emails |
| NewsletterProcessor.CountLine | src/newsletter/processor.py:77 | the count line is its key, the number and a comma, so the number is the text between them |
| NewsletterProcessor.MetadataLinesUnbroken | src/newsletter/processor.py:75-83 | no metadata line contains a line break when the timestamp has none, so the file splits back into its six lines |
| NewsletterProcessor.NoNewlineInDecimal | src/newsletter/processor.py:77-79 | printed numbers contain no line break |
| NewsletterProcessor.WriteEachSnoc | src/newsletter/processor.py:66-71 | writing one more email file is one more single write |
| NewsletterProcessor.WriteEachStep | src/newsletter/processor.py:66-71 | a loop round that writes the next file reaches the state of writing one more file |
| NewsletterProcessor.WriteEachSaved | src/newsletter/processor.py:66-71 | when the file names are distinct, every file written holds its own content at the end |
| NewsletterProcessor.Names | src/newsletter/processor.py:66-68 | the i-th email is saved under its file name with sequence number i + 1 |
| NewsletterProcessor.Markdowns | src/newsletter/processor.py:66-67 | the i-th file holds the Markdown of the i-th email |
| NewsletterProcessor.NamesDistinct | src/newsletter/processor.py:66-71 | no two emails of one run get the same file name, so none overwrites another |
| NewsletterProcessor.EveryEmailSaved | src/newsletter/processor.py:66-71 | after the saving loop every email is in the folder under its name with its Markdown |
| NewsletterProcessor.OtherFilesKept | src/newsletter/processor.py:66-71 | a file not among the names written keeps its content |
| NewsletterProcessor.EmailNamesAreNotReserved | src/newsletter/processor.py:82-92 | no email file is named `_metadata.json` or `summary.md`, so neither the metadata nor the summary overwrites an email |
| NewsletterProcessor.Processor.constructor | src/newsletter/processor.py:20-24 | the processor keeps its converter and its prompt, or the prompt's absence |
| NewsletterProcessor.Processor.Process | src/newsletter/processor.py:26-115 | a fetch error gives a failed report and touches nothing; no email gives a successful report with count 0, no folder and `No newsletters received this week.`; otherwise the emails and the metadata are written to the week folder, the analysis is run on it, its error becomes a failed report, and its success a report counting the emails whose summary is `summary.md` when written and the output otherwise |
| NewsletterProcessor.Processor.SaveAll | src/newsletter/processor.py:65-83 | the folder afterwards holds every email file and the metadata file, as `Written` says |
| NewsletterProcessor.Processor.SaveEmails | src/newsletter/processor.py:66-71 | the saving loop writes, in order, each email's Markdown under its file name |
| NewsletterProcessor.Processor.FileFor | src/newsletter/processor.py:67-68 | one round computes the file name and the Markdown of the email at that position |
| NewsletterProcessor.Processor.Analyze | src/newsletter/claude_runner.py:17-71 | the result, the folder and the calls made are those `AnalyzeStep` gives |
| NewsletterProcessor.SuccessfulRunKeepsEverything | tests/newsletter/test_processor.py:15-54 | after a successful analysis the assistant was called exactly once, and the folder still holds the metadata and every email as written |
| NewsletterProcessor.SavedAfterReservedWrite | src/newsletter/processor.py:82-92 | writing the metadata or the summary keeps every email file |
| NewsletterProcessor.KeptByOtherWrite | src/newsletter/processor.py:82-92 | a write under another name keeps a file |
| EmailConverter.FormatStamp | src/newsletter/email_converter.py:29 | the `%Y-%m-%d %H:%M:%S` date never contains a line break |
| EmailConverter.PadIntDigits | src/newsletter/email_converter.py:29 | zero-padded date fields are all digits |
| EmailConverter.FrontMatter | src/newsletter/email_converter.py:26-33 | the front matter opens with `---`, then the sender and subject lines, and ends with a line break |
| EmailConverter.FrontLines | src/newsletter/email_converter.py:26-33 | the front matter is eight lines: `---`, four fields, `---` and two empty lines |
| EmailConverter.FrontMatterIsJoin | src/newsletter/email_converter.py:26-33 | the front matter is its eight lines joined by line breaks |
| EmailConverter.FrontMatterPieces | src/newsletter/email_converter.py:26-33 | the front matter text and the line-by-line join agree character for character |
| EmailConverter.ToMarkdown | src/newsletter/email_converter.py:17-35 | the Markdown starts with the front matter and ends with the converted HTML when the email has HTML, and with the plain text otherwise |
| EmailConverter.FrontMatterReadsBack | src/newsletter/email_converter.py:17-35 | when sender, subject and message id are single lines, the file's lines are the six front matter lines, an empty line, then the lines of the body: the header can be read back unambiguously |
| EmailConverter.DomainSearchMeaning | src/newsletter/email_converter.py:44 | the search finds nothing exactly when no `@` is followed by a domain character, and otherwise returns the leftmost longest match |
| EmailConverter.SenderDomain | src/newsletter/email_converter.py:44-45 | the domain is never empty: it is `unknown` when the sender has no `@` followed by a domain character, and the leftmost match otherwise |
| EmailConverter.Filter | src/newsletter/email_converter.py:49 | deleting characters never lengthens the text |
| EmailConverter.FilterChars | src/newsletter/email_converter.py:49 | every kept character passes the test and comes from the input |
| EmailConverter.CollapseRuns | src/newsletter/email_converter.py:50 | replacing runs never lengthens the text |
| EmailConverter.CollapseRunsChars | src/newsletter/email_converter.py:50 | every character of the result is the dash or a character of the input that is not whitespace or `_` |
| EmailConverter.Slug | src/newsletter/email_converter.py:48-52 | the slug is at most 50 characters of lower-case word characters and dashes, and neither starts nor ends with a dash |
| EmailConverter.DashedAreSlugChars | src/newsletter/email_converter.py:48-50 | after filtering and dashing, only slug characters remain |
| EmailConverter.TrimmedAreSlugChars | src/newsletter/email_converter.py:52 | stripping dashes keeps only slug characters |
| EmailConverter.GenerateFilename | src/newsletter/email_converter.py:37-54 | the name ends with `.md` and, for a non-negative sequence, starts with the three-digit sequence number and `_` |
| EmailConverter.FilenamesDistinct | src/newsletter/email_converter.py:54 | two different sequence numbers never give the same file name, whatever the emails |
| EmailConverter.NumberBeforeUnderscore | src/newsletter/email_converter.py:54 | the sequence number is the text before the first `_` |
| EmailConverter.DomainExample | tests/newsletter/test_email_converter.py:34-48 | the domain of `newsletter@github.com` is `github.com` |
| EmailConverter.FilterAppend | src/newsletter/email_converter.py:49 | filtering distributes over concatenation |
| EmailConverter.FilterKeepsAll | src/newsletter/email_converter.py:49 | a text of allowed characters is unchanged by filtering |
| EmailConverter.CollapseWord | src/newsletter/email_converter.py:50 | a word without gaps passes through unchanged |
| EmailConverter.CollapseOneGap | src/newsletter/email_converter.py:50 | a single gap before a word becomes one dash |
| EmailConverter.SlugExample | tests/newsletter/test_email_converter.py:34-48 | `GitHub Changelog Feb 10!` becomes `github-changelog-feb-10` |
| EmailConverter.LowerExample | src/newsletter/email_converter.py:48 | the sample subject lower-cased |
| EmailConverter.KeptExample | src/newsletter/email_converter.py:49 | the `!` of the sample subject is deleted |
| EmailConverter.DashedExample | src/newsletter/email_converter.py:50 | the spaces of the sample subject become dashes |
| EmailConverter.ExampleWords | src/newsletter/email_converter.py:50 | the sample subject is four words separated by single spaces |
| EmailConverter.AlphanumericIsNotGap | src/newsletter/email_converter.py:50 | letters and digits are not gaps |
| EmailConverter.TrimExample | src/newsletter/email_converter.py:52 | the sample slug has no dash to strip |
| EmailConverter.CollapseAfterWord | src/newsletter/email_converter.py:50 | a space between two words becomes one dash |
| EmailConverter.CollapseExample | src/newsletter/email_converter.py:50 | four words separated by single spaces become four words separated by single dashes |
| EmailConverter.FilenameExample | tests/newsletter/test_email_converter.py:34-48 | the sample email with sequence 5 is named `005_github.com_github-changelog-feb-10.md` |
| EmailConverter.PadFive | src/newsletter/email_converter.py:54 | 5 printed with `:03d` is `005` |
| MarkdownParser.StripAll | src/utils/markdown_parser.py:43 | each piece of the row is stripped, one for one |
| MarkdownParser.NonEmpty | src/utils/markdown_parser.py:45 | filtering never adds pieces and leaves only non-empty ones |
| MarkdownParser.NonEmptyKeepsAll | src/utils/markdown_parser.py:45 | a row with no empty piece loses nothing to the filter |
| MarkdownParser.NonEmptyAppend | src/utils/markdown_parser.py:45 | filtering distributes over concatenation |
| MarkdownParser.Cells | src/utils/markdown_parser.py:43-45 | every cell of a row is non-empty and contains no bar character |
| MarkdownParser.NonEmptyFrom | src/utils/markdown_parser.py:45 | every kept piece is one of the stripped pieces |
| MarkdownParser.RowItem | src/utils/markdown_parser.py:49-70 | a six-cell row gives an item exactly when the calorie cell reads as an integer and the three macronutrient cells as floats; the item then holds the name, the calories, the three nutrient texts and the unit, in column order |
| MarkdownParser.Items | src/utils/markdown_parser.py:40-48 | each line of the file is read on its own, one result per line |
| MarkdownParser.ItemsAppend | src/utils/markdown_parser.py:40 | reading two runs of lines in turn is reading their concatenation |
| MarkdownParser.CatalogKeys | src/utils/markdown_parser.py:66-67 | a name is in the dictionary exactly when some food row's lower-cased name is that name |
| MarkdownParser.CatalogNext | src/utils/markdown_parser.py:40-70 | one more line adds its item under its lower-cased name, or changes nothing when it is no food row |
| MarkdownParser.CatalogLastWins | src/utils/markdown_parser.py:66-67 | when two rows share a name ignoring case, the later row's item is the one kept |
| MarkdownParser.CatalogKeysAreLower | src/utils/markdown_parser.py:66-67 | every key of the dictionary is lower case |
| MarkdownParser.SkippedLineChangesNothing | src/utils/markdown_parser.py:47-70 | a header, separator, heading, malformed or non-table line leaves the dictionary as it was |
| MarkdownParser.NotFound | src/utils/markdown_parser.py:33 | a missing file raises `FileNotFoundError` with the usual `[Errno 2]` message |
| MarkdownParser.FoodDatabaseParser.constructor | src/utils/markdown_parser.py:21-23 | the parser keeps its path and starts with an empty dictionary |
| MarkdownParser.FoodDatabaseParser.Load | src/utils/markdown_parser.py:25-72 | the dictionary is emptied first; a missing file leaves it empty and fails; otherwise the dictionary becomes the one `Catalog` builds from the lines of the file, and is returned |
| MarkdownParser.FoodDatabaseParser.ReadRow | src/utils/markdown_parser.py:41-65 | one loop round gives the item of the line exactly as `LineItem` describes |
| MarkdownParser.FoodDatabaseParser.Lookup | src/utils/markdown_parser.py:74-83 | `dict.get` on the lower-cased name: an entry is found exactly when one is stored under that key, and it is the stored one |
| MarkdownParser.LookupIgnoresCase | tests/test_markdown_parser.py:49-73 | asking with a name or its lower-cased form finds the same entry |
| MarkdownParser.LookupAfterLoad | src/utils/markdown_parser.py:74-83 | on the dictionary a load leaves, `lookup` finds an entry exactly when some food row's name matches the asked name ignoring letter case, and it returns the last such row's item |
| MarkdownParser.RowCells | src/utils/markdown_parser.py:43-45 | a line whose stripped pieces are the cells between two empty ends yields exactly those cells |
| MarkdownParser.SixPieceLine | src/utils/markdown_parser.py:43 | a line of six barred values is the join, by bar characters, of the values between two empty ends |
| MarkdownParser.BarredCells | src/utils/markdown_parser.py:43-45 | a line of barred values whose stripped forms are non-empty yields exactly those stripped values |
| MarkdownParser.BarredPieces | src/utils/markdown_parser.py:43 | splitting a barred line gives the values between two empty pieces, each stripped |
| MarkdownParser.Padded | src/tools/food_tool.py:101-105 | each value of a written row is padded with one space on either side |
| MarkdownParser.TableRowCells | src/utils/markdown_parser.py:43-45 | reading a written table row gives back its values, stripped |
| MarkdownParser.PaddedPieces | src/utils/markdown_parser.py:43 | splitting a written row gives the padded values between two empty pieces |
| MarkdownParser.TableRowWithout | src/tools/food_tool.py:101-105 | a character absent from every value and other than the bar character and the space is absent from the row |
| MarkdownParser.TableRowBarred | src/tools/food_tool.py:101-105 | a written row starts and ends with a bar character |
| MarkdownParser.FoodRowLoaded | src/utils/markdown_parser.py:42-65 | a barred food row with well-formed numbers is loaded as the item of its cells |
| MarkdownParser.BarredIsTableLine | src/utils/markdown_parser.py:42 | a line starting and ending with a bar character counts as a table line |
| FoodTool.NewLog | src/tools/food_tool.py:81-82 | a new daily log opens with the `# Daily Log - ` title and ends with a line break |
| FoodTool.TableHead | src/tools/food_tool.py:90-93 | the table head starts with the `## Dziennik Żywieniowy` heading and ends with a line break |
| FoodTool.RowValues | src/tools/food_tool.py:101-105 | a row has seven cells: time, name, calories, three nutrients and source |
| FoodTool.Writable | src/tools/food_tool.py:96-106 | the rows written are the longest leading run of items that have nutrition; the first item without it, if any, stops the loop |
| FoodTool.Logged | src/tools/food_tool.py:81-106 | the log afterwards starts with everything it held before and contains the table heading; the head is added only when the heading was missing, followed by the rows of the writable items |
| FoodTool.WithHead | src/tools/food_tool.py:89-93 | the log keeps its content and afterwards contains the table heading |
| FoodTool.FoodTool.constructor | src/tools/food_tool.py:11-19 | the tool keeps its parser, its log folder and its number formatting |
| FoodTool.FoodTool.LookupAndLog | src/tools/food_tool.py:21-66 | one result per asked name, in order, each under the name as asked; a name the database knows gets its four nutrition values and source `Database`, and any other gets no nutrition and source `needs_estimation`; the meal type is passed through |
| FoodTool.FoodTool.LogToDaily | src/tools/food_tool.py:68-106 | only today's log changes: it becomes the existing log (or a new one with its title) with the table head when missing and the rows of the writable items; the call fails, with the `NoneType` subscript error, exactly when some item has no nutrition |
| FoodTool.FoodTool.OpenLog | src/tools/food_tool.py:78-93 | today's log is created when missing and gets the table head when it has none, and nothing else changes |
| FoodTool.FoodTool.AppendRows | src/tools/food_tool.py:95-106 | the rows of the writable items are appended to the log, and the loop fails exactly when an item has no nutrition |
| FoodTool.RowsSnoc | src/tools/food_tool.py:96-106 | the rows of one more writable item are the earlier rows followed by that item's row |
| FoodTool.NextRow | src/tools/food_tool.py:96-106 | writing the row of the next item that has nutrition extends the rows written so far |
| FoodTool.WritableStops | src/tools/food_tool.py:98-102 | an item without nutrition is where writing stops |
| FoodTool.WritableGoesOn | src/tools/food_tool.py:96-106 | an item with nutrition within the writable run is written |
| FoodTool.SecondLogAddsOnlyRows | src/tools/food_tool.py:89-93 | a second logging the same day adds only rows: the table head is written once per file |
| FoodTool.RowLines | src/tools/food_tool.py:101-105 | one row line per entry |
| FoodTool.RowsAreLines | src/tools/food_tool.py:101-106 | the rows written are the row lines, each terminated by a line break |
| FoodTool.RowsReadBack | src/tools/food_tool.py:101-106 | splitting the rows written at line breaks gives back each row line, in order |
| FoodTool.RowLinesAt | src/tools/food_tool.py:101-105 | the k-th row line is the row of the k-th entry |
| Api.RowMeal | src/main.py:186-199 | a seven-cell row counts exactly when the calorie cell reads as an integer and the three macronutrient cells as floats; it then adds those values |
| Api.Meals | src/main.py:180-186 | each line of the log is read on its own, one result per line |
| Api.MealsAppend | src/main.py:180 | reading two runs of lines in turn is reading their concatenation |
| Api.TotalAppend | src/main.py:173-197 | the totals of two runs of lines in turn are the sums of their totals |
| Api.PlusCounted | src/main.py:193-197 | counting a meal after adding totals is adding after counting it |
| Api.TallyAppend | src/main.py:180-199 | the totals of a log split in two are the sums of the totals of its parts |
| Api.ReadRow | src/main.py:181-199 | one loop round gives the meal of the line exactly as `LineMeal` describes |
| Api.TotalNext | src/main.py:180-199 | one more line adds its meal to the totals and one to the count, or nothing when it is no meal row |
| Api.NutritionStatusOf | src/main.py:149-208 | the status carries today's date; without a log every total is zero; otherwise the totals are those `Tally` gives for the lines of the log |
| Api.RowReadBack | src/tools/food_tool.py:101-105 | a row written by the food tool for a loggable entry is one line, and the totals read it back as that entry's calories and nutrients |
| Api.TimeCell | src/tools/food_tool.py:85 | an `HH:MM` time is a clean first cell that is neither the column title nor a separator |
| Api.KcalCell | src/tools/food_tool.py:102 | a printed calorie count is a clean cell that reads back as the same integer |
| Api.RowLinesTally | src/main.py:180-199 | the totals of the food tool's row lines are the sums over the logged entries |
| Api.TallyOfOne | src/main.py:193-197 | a single meal line counts as one meal with its values |
| Api.TotalOfOne | src/main.py:193-197 | one meal counts once with its values |
| Api.PlusNothing | src/main.py:173-177 | zero totals are neutral for addition |
| Api.TallyDropsEmptyLast | src/main.py:180 | the empty piece after the file's last line break adds nothing |
| Api.TallyAfterLog | src/tools/food_tool.py:68-106 | after the food tool logs entries to a day's log, the day's totals grow by exactly the totals of the entries written |
| Api.AppendedTally | src/tools/food_tool.py:89-106 | a table head added before the rows changes no total |
| Api.TallyAfterText | src/main.py:180-199 | text appended after a complete line adds its own totals |
| Api.RowsTally | src/main.py:180-199 | the totals of the rows written are the sums over their entries |
| Api.HeadThenRows | src/tools/food_tool.py:90-93 | the table head before the rows adds nothing to their totals |
| Api.FirstCell | src/main.py:182-186 | the first cell of a barred line is its first value, stripped |
| Api.HeadAddsNothing | src/main.py:181-186 | the heading, the column titles and the separator of the table count as no meal |
| Api.NothingAddedInFive | src/main.py:180-199 | five lines that are no meal rows add nothing |
| Api.HeadLines | src/tools/food_tool.py:90-93 | the table head is the heading, an empty line, the column titles and the separator, each on its own line |
| Api.TerminatedFour | src/tools/food_tool.py:91-93 | four written lines are the four lines each followed by a line break |
| Api.TotalOfNothing | src/main.py:173-199 | lines that are no meal rows leave every total at zero |
| Api.HeadLinesUnbroken | src/tools/food_tool.py:90-93 | no line of the table head contains a line break |
| Api.HeadingIsNoMeal | src/main.py:181 | the `## Dziennik Żywieniowy` heading is skipped: it has no bar character |
| Api.TitlesAreNoMeal | src/main.py:186 | the column-title row is skipped: its first cell is `Godzina` |
| Api.SeparatorIsNoMeal | src/main.py:186 | the separator row is skipped: its first cell starts with `-` |
| Api.SessionAfter | src/main.py:98-109 | the session is the one the request brought or one announced by the stream |
| Api.Answer | src/main.py:111-114 | the answer is the stripped reply, or `I processed your request.` when that is empty; the session is the final one, or `no-session` when there is none; neither is ever empty |
| Api.ChatEndpoint | src/main.py:81-120 | without an agent the endpoint fails with 503 and `Frank agent not initialized`; an exception from the stream gives 500 with `Error processing chat: ` and its text; otherwise the answer folds the text chunks and the last announced session |
| Api.ReplyAppend | src/main.py:101-105 | the reply of two runs of chunks in turn is the concatenation of their replies |
| Api.QuietChunks | src/main.py:102-105 | chunks that are not non-empty text add nothing to the reply |
| Api.SilentReply | src/main.py:102-105 | a stream of no non-empty text chunks gives an empty reply |
| Api.TextIsSaid | src/main.py:102-105 | every non-empty text chunk appears in the reply in its place, between the reply before it and the reply after it |
| Api.LastSessionWins | src/main.py:108-109 | the last chunk that announces a session decides the final session |
| Api.NoSessionKeepsStart | src/main.py:98 | when no chunk announces a session, the request's session stays |
| Api.SessionAppend | src/main.py:98-109 | following two runs of chunks in turn is following their concatenation |
| FoodTableExample.PadStrips | tests/test_markdown_parser.py:25-28 | a cell padded with spaces strips back to its text |
| FoodTableExample.PaddedCells | tests/test_markdown_parser.py:25-28 | a line of six padded cells between bars reads as those six cells |
| FoodTableExample.HeaderCells | tests/test_markdown_parser.py:25 | the column-title row reads as its six titles |
| FoodTableExample.HeaderSkipped | tests/test_markdown_parser.py:25 | the column-title row of the sample table gives no item |
| FoodTableExample.SeparatorCells | tests/test_markdown_parser.py:26 | the separator row reads as six runs of dashes |
| FoodTableExample.SeparatorSkipped | tests/test_markdown_parser.py:26 | the separator row of the sample table gives no item |
| FoodTableExample.OwsiankaLoaded | tests/test_markdown_parser.py:27-41 | the `Owsianka` row loads as 450 kcal with protein `20` |
| FoodTableExample.BananLoaded | tests/test_markdown_parser.py:28-44 | the `Banan` row loads as 105 kcal |
| FoodTableExample.TitleSkipped | tests/test_markdown_parser.py:23 | the `#` title line gives no item |
| FoodTableExample.SampleItems | tests/test_markdown_parser.py:23-29 | of the sample file's seven lines only the two food rows give items |
| FoodTableExample.SampleCatalog | tests/test_markdown_parser.py:36-44 | the sample file loads into a dictionary of exactly `owsianka` and `banan` |
| FoodTableExample.SampleLookups | tests/test_markdown_parser.py:62-73 | after loading, `Owsianka` is found whatever its letter case and `Pizza` is not found |
| FoodTableExample.LowerExamples | tests/test_markdown_parser.py:66-70 | the sample names in every letter case lower to `owsianka`, `banan` and `pizza` |

## Left out

- The scheduler `start` loops, their sleeping, cancellation, the one-hour back-off after an error, and `stop`: these are concurrency and timing, not logic.
- The real subprocess call: the assistant is a reply function of the call number and the prompt. A timeout or a missing executable is a `Raised` reply carrying the message the code raises. The command-line flags, the timeout value and the working directory are not modelled.
- Whether `summary.md` exists after a call is part of the reply (`leavesSummary`). A `summary.md` left by an earlier run in the same week folder is kept, as in the code, and then wins over the output.
- `src/newsletter/email_fetcher.py` is not part of this model: the fetch result (the e-mails, or the error message of the exception) is a parameter of `NewsletterProcessor.Processor.Process`. Its sender allow-list is not modelled.
- The HTML-to-Markdown conversion (html2text) is an arbitrary function parameter.
- Floating point: protein, carbs and fat stay as the literals of the table. A cell counts when `float()` would accept it (`IsFloatText`). The totals keep these literals in order instead of their float sums. The `:.0f` rendering in the daily log is a function parameter.
- The clock: today's date, the current time, the metadata timestamp, the ISO week number and the calendar year are parameters. The ISO week computation is not modelled. The two processors pair the ISO week number with the calendar year, and around New Year these can belong to different years (31 December 2025 is in ISO week 1 of 2026). The model takes both as given and does not relate them.
- Unicode: `\w` and `lower()` are modelled for ASCII only; `isspace()` follows Python's list of whitespace characters.
- The FastAPI application, CORS, the health endpoint, the lifespan wiring, the refresh-db endpoint and the pydantic schemas: web plumbing without logic of its own.
- Configuration loading, the Telegram bot front end, the Agent SDK wrapper and the scripts.
- JSON: the blog sources file arrives already read, as missing, unreadable (with the exception's message) or a list of sources whose `url` and `name` may be absent. The metadata JSON is printed as `json.dumps` does with `indent=2`, but string escaping of the timestamp is not modelled.
- Logging calls everywhere.
- Api.ChatEndpoint: an exception from the reply stream is given as an optional failure after the chunks. Any failure gives the 500 answer, whatever was streamed before it.
- Api.TallyAfterLog: requires the log before the call to end with a line break. The food tool only ever writes such logs (its title and every row end with one), but a hand-edited log without a final line break is not covered.
- Schedule.NextRun: does not model the `OverflowError` of dates past year 9999; days are unbounded.
- Formatter.SplitLongMessage: requires a positive limit unless the text fits or is empty. With a limit of 0 or below and a non-empty text longer than the limit, the Python loop never ends, so those inputs are excluded. The empty text with a negative limit is covered and gives no chunk.
- EmailConverter.GenerateFilename: states the three-digit prefix only for non-negative sequence numbers. The pipeline numbers from 1.
