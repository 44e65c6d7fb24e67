# brainrot-analyzer relay, modelled in Dafny

The relay runs `signal-cli` in JSON-RPC mode and reads its notifications line by line. Each
notification can carry a chat message. When the message holds a TikTok or Instagram link, the
relay spawns a task that downloads the video, extracts frames and asks an analyser for a
summary. The task sends the summary back to the sender as a JSON-RPC `send` request written
to `signal-cli`'s input by a single writer task.

This project models the decision logic of that relay (`src/main.rs`) as pure functions and
proves properties about them:

- `Events`: the decoded notification structures (`RpcResponse`, `RpcParams`, `Envelope`,
  `DataMessage`, `SyncMessage`, `SentMessage`, all fields optional) and the rule that extracts
  a `(source, text)` pair. A data message wins over a sync message. A note-to-self counts only
  when it was sent to the source itself.
- `Links`: the two link regexes as hand-written matchers. `MatchesAt` is the language of each
  regex: scheme, optional listed subdomain, domain, Instagram path section, then a run of one
  or more non-whitespace characters. `Find` models `Regex::find` and is proved to return the
  leftmost match, extended to the first whitespace. `Classify` gives TikTok precedence over
  Instagram.
- `Analysis`: how the analyser's output becomes reply text (trim, cut at 3000 bytes,
  truncation marker, failure prefix), which downloaded file is the video and which are
  subtitles (`Path::extension` / `Path::file_stem` semantics), and how the stages of
  `analyze_video` chain.
- `Outbound`: the `send` request built for each reply, and the newline framing of the
  writer's output stream.
- `Relay`: one turn of the main loop, the loop over all lines, what each finished task puts on
  the channel, and the stream the writer produces.
- `Scenarios`: worked cases. One is the example message with a `vm.tiktok.com` link, its job
  and its reply. Others cover a message holding both kinds of link, an analyser failure, a
  formatting panic and a download failure.

Modelling choices:

- Strings are Dafny strings, that is, sequences of Unicode scalar values, like a decoded Rust
  `&str`. Rust's `len()` and `[..3000]` count UTF-8 bytes, so the model measures lengths with
  `Text.ByteLen`, the sum of each character's UTF-8 width. The 3000 limit is therefore in
  bytes. For ASCII text, bytes and characters coincide (`Analysis.AsciiTruncation`).
- Whitespace is the Unicode White_Space property. Both `str::trim` and the regex class `\s`
  use it.
- JSON decoding is a parameter `parse: string -> Option<RpcResponse>`, where `None` is a line
  serde rejects. JSON encoding is a parameter `serialize`, assumed to produce a single line.
- Subprocess results are inputs (`ToolRun`: exit success, stdout, stderr). The directory
  listing after yt-dlp is an input sequence of file names, in `read_dir` order. The order in
  which spawned tasks finish is an input (`Relay.Completion` sequence).
- An error from yt-dlp, from finding the video or from ffmpeg is only logged, so no reply is
  sent (`Relay.FailuresAreSilent`). The analyser's own non-zero exit does produce a reply: the
  text "Opencode Failed: " plus its trimmed error output.
- Each link spawns its own task, with no bound on how many run at once, and no stage has a
  time-out. Every task works in the same fixed directory `/tmp/brainrot_summarizer`
  (src/main.rs:194). The reply limit of 3000 counts bytes, not characters.

## Model

| member | source | states |
|---|---|---|
| `Text.Trim` | src/main.rs:238 | the result is a contiguous slice of the input with only whitespace cut from both ends, its first and last characters are not whitespace, and it is empty exactly when the input is all whitespace |
| `Text.TrimIdempotent` | src/main.rs:238 | trimming an already trimmed string changes nothing |
| `Text.IsBlank` | src/main.rs:104-106 | a line counts as blank, and is skipped, exactly when every character is whitespace |
| `Text.FitPrefix` | src/main.rs:240 | the returned prefix fits in the byte limit, and one more character would exceed it, so the cut is at the last character boundary at or before the limit |
| `Text.BoundaryIsFit` | src/main.rs:240 | when some prefix is exactly the byte limit long, that prefix is the one the cut keeps |
| `Text.FitPrefixAtBoundary` | src/main.rs:240 | the cut lands exactly on the limit precisely when the limit is a character boundary, i.e. when Rust's byte slice would be legal |
| `Text.Utf8Width` | src/main.rs:239 | a character takes one to four bytes in UTF-8, and exactly one when it is ASCII |
| `Text.ByteLen` | src/main.rs:239 | `str::len` counts at least one and at most four bytes per character |
| `Events.UsableEnvelope` | src/main.rs:115-127 | an envelope is used exactly when the method is "receive" and params, envelope and sourceNumber are all present |
| `Events.EnvelopeText` | src/main.rs:129-143 | with a data message the text is exactly its message (possibly none); otherwise text comes only from a sync message whose destination equals the source |
| `Events.Extract` | src/main.rs:115-147 | anything extracted comes from a usable receive envelope and names its sourceNumber as source |
| `Events.ExtractNeedsReceive` | src/main.rs:115-127 | a method other than exactly "receive", or a missing params, envelope or sourceNumber, yields nothing |
| `Events.DataMessageWins` | src/main.rs:132-135 | with a data message present, replacing the sync message changes nothing and the result is the data message's text |
| `Events.SyncToOtherIgnored` | src/main.rs:136-143 | a note sent to any destination other than the source yields nothing |
| `Events.ExtractRoundTrip` | src/main.rs:129-147 | a data message and a note-to-self sent to the source both yield back their source and text |
| `Events.ExtractComplete` | src/main.rs:129-147 | every extracted pair comes from one of those two shapes |
| `Links.PatternsSpaceFree` | src/main.rs:97-100 | no scheme, subdomain, domain or section literal of either regex contains whitespace |
| `Links.HeadAt` | src/main.rs:97-100 | reports a head length only when some scheme/subdomain/domain/section alternative occurs there followed by a non-whitespace character, and reports none only when no alternative does |
| `Links.RunEnd` | src/main.rs:98 | the greedy `[^\s]+` run stops at the first whitespace or at the end of the text |
| `Links.MatchEndBound` | src/main.rs:98 | no match starting at a position extends past the end of the whitespace-free run starting there |
| `Links.FindFrom` | src/main.rs:149 | searching from a position returns the first start with a match there and the longest match at it, or none when no match starts at or after the position |
| `Links.Find` | src/main.rs:149 | the reported span is the leftmost match, no match at that start is longer, it ends at whitespace or the end of the text, and none is reported exactly when the text holds no match |
| `Links.MatchSlice` | src/main.rs:150 | the reported substring is itself a full match of the pattern |
| `Links.FindLink` | src/main.rs:149-150 | a platform's link is found exactly when its pattern matches somewhere, and its URL is the leftmost-longest match |
| `Links.ReportedUrlShape` | src/main.rs:97-100 | a reported URL is in the pattern's language and holds no whitespace |
| `Links.MatchNoSpace` | src/main.rs:97-100 | every match of a pattern is free of whitespace |
| `Links.Classify` | src/main.rs:149-187 | the result is TikTok exactly when the text holds a TikTok match, Instagram exactly when it holds no TikTok match but an Instagram one, none otherwise, and the URL is the platform's leftmost-longest match |
| `Links.ClassifiedUrlShape` | src/main.rs:97-100 | a classified URL starts with a listed scheme, subdomain, domain and section, continues with at least one more character, and contains no whitespace |
| `Links.ReportedUnique` | src/main.rs:149 | the leftmost-longest match is unique, so the URL acted on is determined by the text |
| `Links.MatchStartsHttp` | src/main.rs:98 | every match begins with "http" |
| `Analysis.MarkerIsAscii` | src/main.rs:240 | the truncation marker "...\n\n(truncated)" is 16 ASCII characters, 16 bytes |
| `Analysis.FormatAnalysis` | src/main.rs:236-247 | successful output of at most 3000 bytes after trimming is returned unchanged; longer output keeps the longest prefix that fits in 3000 bytes and appends "...\n\n(truncated)", at most 3016 bytes in all; a failed run yields "Opencode Failed: " and the trimmed error output |
| `Analysis.TruncatedAtLimit` | src/main.rs:239-240 | when byte 3000 is a character boundary, exactly 3000 bytes are kept before the marker, as the byte slice takes |
| `Analysis.AsciiTruncation` | src/main.rs:239-243 | on ASCII output, 3000 characters or fewer are returned unchanged, and longer output becomes its first 3000 characters followed by the marker |
| `Analysis.FormatAsWritten` | src/main.rs:236-247 | the formatting as written panics exactly when the trimmed output exceeds 3000 bytes and byte 3000 falls inside a character; otherwise it agrees with the corrected formatting |
| `Analysis.AsWrittenPanics` | src/main.rs:240 | an "a" followed by 1500 copies of "é" makes the formatting as written panic |
| `Analysis.ExtensionRule` | src/main.rs:308 | a name has no extension exactly when it is "..", holds no '.', or has its only '.' as first character; otherwise the extension is the dot-free text after a '.' that is not the first character |
| `Analysis.StemRule` | src/main.rs:313 | without an extension the stem is the whole name; with one, the name is the non-empty stem, a '.', and the extension |
| `Analysis.JoinSplits` | src/main.rs:308-313 | joining a non-empty stem and a dot-free extension gives back that extension and stem |
| `Analysis.SubtitleShape` | src/main.rs:308-309 | a name is moved as a subtitle exactly when it is longer than ".vtt" and ends in ".vtt" |
| `Analysis.VideoFileShape` | src/main.rs:308-316 | a name is a video candidate exactly when it is "video." followed by text with no '.' other than "vtt" |
| `Analysis.ScanDir` | src/main.rs:302-320 | the moved files are exactly the listed `.vtt` names; the video is a listed name with stem "video" and a non-vtt extension and no later name qualifies; no video is found exactly when no name qualifies |
| `Analysis.SubtitleNeverVideo` | src/main.rs:308-317 | a moved subtitle is never chosen as the video |
| `Analysis.DownloadResult` | src/main.rs:297-322 | a failed yt-dlp is an error carrying its stderr; otherwise the result is an error exactly when no listed name qualifies as the video, and any video returned is a listed qualifying name |
| `Analysis.AnalyzeVideo` | src/main.rs:206-247 | a download error is the task's error; a found video with a failed ffmpeg is the error "ffmpeg failed: " plus its stderr; the task panics exactly when the stages before the analyser succeed and the analyser's successful trimmed output is over 3000 bytes with byte 3000 inside a character; it finishes with text exactly when the earlier stages succeed and the formatting does not panic, and that text is the corrected formatting of the analyser run |
| `Analysis.AnalyserFailureStillReplies` | src/main.rs:244-247 | an analyser with a non-zero exit still finishes the task, with the failure text as its result |
| `Outbound.SendRequest` | src/main.rs:327-335 | every request has jsonrpc "2.0", method "send", id "100" and exactly one recipient |
| `Outbound.SendRequestRoundTrip` | src/main.rs:327-335 | the recipient and message read back unchanged from the request, and any request of that shape is the one built for them |
| `Outbound.WireLine` | src/main.rs:337-340 | each write ends in a newline, and with single-line JSON it reads back as exactly one line, the serialised request |
| `Outbound.WriterOutput` | src/main.rs:89-93 | the writer writes nothing exactly when no reply was enqueued, and otherwise its output ends in a newline |
| `Outbound.WriterOutputFraming` | src/main.rs:337-341 | the writer's output splits into exactly one line per reply, in channel order, each line being that reply's serialised request |
| `Outbound.WireLineEndsOnce` | src/main.rs:337-338 | each write ends with a newline and holds no other newline |
| `Relay.ProcessLine` | src/main.rs:103-187 | a blank line spawns nothing; a job comes from a parsed line with extracted text, replies to the envelope's sourceNumber and carries that text's classified link |
| `Relay.ProcessLineIff` | src/main.rs:103-187 | a line spawns a job exactly when it is not blank, parses, yields text, and that text holds a TikTok or Instagram match |
| `Relay.TikTokFirst` | src/main.rs:149-187 | a spawned job is a TikTok job exactly when the text holds a TikTok match |
| `Relay.MainLoop` | src/main.rs:103-188 | the loop spawns at most one job per line |
| `Relay.MainLoopSources` | src/main.rs:103-188 | every job the loop spawns is the job one of the lines asked for |
| `Relay.MainLoopConcat` | src/main.rs:103 | lines are handled in arrival order: the jobs for a concatenation of line sequences are the jobs of the first followed by those of the second |
| `Relay.MainLoopNothingToDo` | src/main.rs:104-187 | lines that each spawn nothing leave the loop with no jobs |
| `Relay.TaskReply` | src/main.rs:157-166 | a task enqueues a reply exactly when it finishes with text, neither erring nor panicking; the reply goes to the job's source and carries the formatted analyser output |
| `Relay.Enqueued` | src/main.rs:157-184 | the channel holds at most one reply per finished task |
| `Relay.EnqueuedSources` | src/main.rs:157-184 | every reply on the channel is the reply of some finished task |
| `Relay.EnqueuedComplete` | src/main.rs:157-184 | every task that finishes with text has its reply on the channel |
| `Relay.FailuresAreSilent` | src/main.rs:157-166 | tasks that each end with an error or a panic leave the channel empty |
| `Relay.OutputStream` | src/main.rs:89-95 | signal-cli receives exactly one line per enqueued reply, each the serialised send request answering the source of a task that finished with text, carrying its formatted output |
| `Scenarios.ExampleClassified` | src/main.rs:149-150 | in "check this https://vm.tiktok.com/ZMabc/ out" the TikTok link "https://vm.tiktok.com/ZMabc/" is found |
| `Scenarios.MixedMessagePicksTikTok` | src/main.rs:149-167 | a message with an Instagram link followed by a TikTok link is classified as TikTok |
| `Scenarios.GoodRunDownloads` | src/main.rs:302-322 | a listing of "video.mp4" and "video.en.vtt" selects "video.mp4" |
| `Scenarios.ExampleLineSpawnsJob` | src/main.rs:103-166 | the example notification spawns one TikTok job replying to "+1555" |
| `Scenarios.ExampleReplyWritten` | src/main.rs:157-161 | a successful analysis printing "funny video" yields the reply "funny video" to "+1555", written as one serialised request with jsonrpc "2.0", method "send", recipient ["+1555"] and id "100", then a newline |
| `Scenarios.AnalyserFailureScenario` | src/main.rs:244-247 | an analyser failure replies "Opencode Failed: " plus the trimmed error output to the source |
| `Scenarios.PanicSendsNothing` | src/main.rs:157-166 | the task whose analyser prints "a" followed by 1500 "é" panics and sends nothing back |
| `Scenarios.DownloadFailureScenario` | src/main.rs:297-300 | a yt-dlp failure sends nothing back |

## Findings

| source | as written | input that shows it | evidently intended | confidence | as-written member | corrected member |
|---|---|---|---|---|---|---|
| src/main.rs:239-240 | `&trimmed[..3000]` slices at byte 3000 and panics when that byte falls inside a multi-byte character; the spawned task dies and no reply is sent | successful analyser output "a" followed by 1500 × "é" (3001 bytes; byte 3000 is inside the last "é") | cut at the last character boundary at or before byte 3000, then append the marker | high, not executed | `Analysis.AsWrittenPanics` | `Analysis.FormatAnalysis` |

`Analysis.FormatAsWritten` models the code as written, and `Analysis.AnalyzeVideo` runs it: on
the input above the task panics and sends nothing (`Scenarios.PanicSendsNothing`).
`Analysis.FormatAnalysis` is the corrected definition, which never panics. Whenever the code
does not panic, the two agree (`Analysis.FormatAsWritten`'s second ensures), so every reply
the model sends carries `Analysis.FormatAnalysis` text.

## Left out

- Concurrency. The tokio runtime, `tokio::spawn`, the capacity-32 `mpsc` channel and its
  backpressure, and the writer task are not modelled as processes. The order in which tasks
  finish is an input, and the channel is the sequence of replies in that order.
  Every task also uses the same fixed working directory. Two concurrent analyses can
  therefore overwrite each other's files, and the model cannot show this because it has
  no filesystem.
- Subprocesses. Spawning `signal-cli`, `yt-dlp`, `ffmpeg` and `opencode` is out of scope.
  This includes the spawn errors raised by `.context("Failed to run …")?`, which the model
  does not represent because a `ToolRun` always ran. Lossy UTF-8 decoding of their output is
  also out: outputs are given as strings.
- JSON. serde_json parsing and serialisation are the parameters `parse` and `serialize`,
  with no escaping modelled. `SingleLine` assumes compact serde output holds no newline.
- Filesystem effects. Removing and creating the fixed temp directory and the subs directory,
  `read_dir` itself and its errors, and `fs::rename` and its error are not modelled. Only the
  rule classifying each listed name is.
- Stream end. Reading stops at end of stream or at a read error, including a line that is not
  valid UTF-8. This is modelled only as the end of the input line sequence.
- Error logging. Write errors in `send_rpc` and the ignored result of `tx.send` are only
  logged or dropped by the code, and are not modelled.
- Output and fixed arguments. Logging, the analysis prompt text and the fixed command-line
  arguments are not modelled.
- Drivers. `src/bin/test_signal.rs` and `src/bin/opencode-test.rs` are standalone drivers
  and are not part of this model.
- Relay.Enqueued: states only the bound. Which replies are present is stated by
  `Relay.EnqueuedSources` and `Relay.EnqueuedComplete`. Neither states how many times a reply
  appears, and the order is that of the completion sequence by construction.
- Relay.MainLoop: states only the bound. Where each job comes from is stated by
  `Relay.MainLoopSources`, and job order by `Relay.MainLoopConcat`.
- Links.HeadAt: does not state which alternative the regex prefers when several could start
  a match. Every alternative's run ends at the same whitespace, so the reported match does
  not depend on that choice.
