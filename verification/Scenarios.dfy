/** Worked end-to-end cases of the relay, stated on the model. */
module Scenarios {
  import opened Wrappers
  import opened Text
  import opened Events
  import opened Links
  import opened Analysis
  import opened Outbound
  import opened Relay

  const Source: string := "+1555"
  const ExampleHead: string := "https://vm.tiktok.com/"
  const ExampleUrl: string := ExampleHead + "ZMabc/"
  const ExampleText: string := "check this " + ExampleUrl + " out"

  /** "http" does not occur before the example's URL. */
  lemma NoHttpBeforeUrl(j: nat)
    requires j < 11
    ensures ExampleText[j..j + 4] != "http"
  {
    var t := ExampleText;
    assert t[..11] == "check this ";
    assert t[j] == t[..11][j];
    if j == 1 {
      assert t[j..j + 4][1] == t[2] == 'e';
    } else if j == 7 {
      assert t[j..j + 4][1] == t[8] == 'i';
    } else {
      assert t[j..j + 4][0] == t[j];
    }
  }

  /** A head followed by a non-empty whitespace-free tail is a match,
      whatever surrounds it. */
  lemma EmbeddedMatch(p: Pattern, a: nat, b: nat, c: nat, pre: string, tail: string, post: string)
    requires ValidChoice(p, a, b, c) && |tail| > 0 && NoSpace(tail)
    ensures var h := Head(p, a, b, c);
      MatchesWith(p, pre + (h + tail) + post, |pre|, |pre| + |h| + |tail|, a, b, c)
  {
    var h := Head(p, a, b, c);
    var text := pre + (h + tail) + post;
    assert text[|pre|..|pre| + |h|] == h;
    assert text[|pre| + |h|..|pre| + |h| + |tail|] == tail;
  }

  lemma ExampleHeadIsHead()
    ensures Head(TikTokPattern, 0, 1, 0) == ExampleHead
  {
  }

  /** The example's URL is a TikTok match at offset 11. */
  lemma ExampleMatch()
    ensures MatchesAt(TikTokPattern, ExampleText, 11, 39)
  {
    ExampleHeadIsHead();
    assert NoSpace("ZMabc/");
    EmbeddedMatch(TikTokPattern, 0, 1, 0, "check this ", "ZMabc/", " out");
  }

  /** No TikTok match starting at offset 11 runs past the following space. */
  lemma ExampleLongest(k: nat)
    requires MatchesAt(TikTokPattern, ExampleText, 11, k)
    ensures k <= 39
  {
    var text := ExampleText;
    PatternsSpaceFree();
    MatchEndBound(TikTokPattern, text, 11, k);
    assert IsSpace(text[39]);
    var e := RunEnd(text, 11);
    assert e <= 39;
  }

  /** The TikTok link in the example message is found, and only it. */
  lemma ExampleClassified()
    ensures Classify(ExampleText) == Some(Link(TikTok, ExampleUrl))
  {
    var text := ExampleText;
    ExampleMatch();
    forall j: nat, k: nat | j < 11 ensures !MatchesAt(TikTokPattern, text, j, k) {
      if MatchesAt(TikTokPattern, text, j, k) {
        MatchStartsHttp(TikTokPattern, text, j, k);
        NoHttpBeforeUrl(j);
      }
    }
    forall k: nat | MatchesAt(TikTokPattern, text, 11, k) ensures k <= 39 {
      ExampleLongest(k);
    }
    assert text[39] == ' ';
    assert text[11..39] == ExampleUrl;
    assert IsReported(TikTokPattern, text, ExampleUrl);
    var r := Classify(text);
    ReportedUnique(TikTokPattern, text, r.value.url, ExampleUrl);
  }

  /** A message with both kinds of link yields the TikTok one. */
  lemma MixedMessagePicksTikTok()
    ensures var text := "https://www.instagram.com/reel/abc https://tiktok.com/x";
      Classify(text).Some? && Classify(text).value.platform == TikTok
  {
    var text := "https://www.instagram.com/reel/abc https://tiktok.com/x";
    assert text[35..54] == Head(TikTokPattern, 0, 5, 0);
    assert text[54..55] == "x";
    assert MatchesWith(TikTokPattern, text, 35, 55, 0, 5, 0);
    assert MatchesAt(TikTokPattern, text, 35, 55);
  }

  /** The decoded example notification. */
  function ExampleEvent(): RpcResponse {
    DataEvent(Source, ExampleText)
  }

  /** A pipeline run where every stage succeeds and the analyser prints `out`. */
  function GoodRun(out: string): PipelineRun {
    PipelineRun(ToolRun(true, "", ""), ["video.mp4", "video.en.vtt"], ToolRun(true, "", ""), ToolRun(true, out, ""))
  }

  lemma GoodRunDownloads(out: string)
    ensures DownloadResult(GoodRun(out).ytdlp, GoodRun(out).listing) == Success("video.mp4")
  {
    var video := "video.mp4";
    var subs := "video.en.vtt";
    assert video[..6] == "video." && video[6..] == "mp4" && video[|video| - 4..] != ".vtt";
    assert subs[|subs| - 4..] == ".vtt" && subs[..6] == "video." && subs[6..] == "en.vtt";
    SubtitleShape(video);
    SubtitleShape(subs);
    VideoFileShape(video);
    VideoFileShape(subs);
    assert IsVideoFile(video) && !IsSubtitle(video);
    assert IsSubtitle(subs) && !IsVideoFile(subs);
    var names := GoodRun(out).listing;
    assert names[..1] == [video] && names[..1][..0] == [];
    assert ScanDir([video]).video == Some(video);
  }

  /** The example line spawns one TikTok job, answering its source. */
  lemma ExampleLineSpawnsJob(parse: string -> Option<RpcResponse>, line: string)
    requires !IsBlank(line) && parse(line) == Some(ExampleEvent())
    ensures ProcessLine(parse, line) == Some(Job(Link(TikTok, ExampleUrl), Source))
  {
    ExtractRoundTrip(Source, ExampleText);
    ExampleClassified();
  }

  /** A successful analysis printing "funny video" is sent back verbatim, as
      exactly one request line. */
  lemma ExampleReplyWritten(serialize: JsonRpcRequest -> string)
    ensures TaskReply(Job(Link(TikTok, ExampleUrl), Source), GoodRun("funny video")) == Some(Reply(Source, "funny video"))
    ensures WriterOutput(serialize, [Reply(Source, "funny video")]) ==
      serialize(JsonRpcRequest("2.0", "send", SendParams([Source], "funny video"), "100")) + "\n"
  {
    GoodRunDownloads("funny video");
    TrimOfTrimmed("funny video");
    assert WriterOutput(serialize, [Reply(Source, "funny video")][1..]) == "";
  }

  /** When the analyser fails, the reply names the failure and still goes to the source. */
  lemma AnalyserFailureScenario(err: string)
    ensures var run := GoodRun("").(opencode := ToolRun(false, "", err));
      TaskReply(Job(Link(TikTok, ExampleUrl), Source), run) == Some(Reply(Source, "Opencode Failed: " + Trim(err)))
  {
    var run := GoodRun("").(opencode := ToolRun(false, "", err));
    GoodRunDownloads("");
    AnalyserFailureStillReplies(run);
  }

  /** When the analyser's output hits the byte slice inside a character, the
      task panics and nothing is sent back. */
  lemma PanicSendsNothing()
    ensures TaskReply(Job(Link(TikTok, ExampleUrl), Source), GoodRun(PanicOutput())) == None
  {
    GoodRunDownloads(PanicOutput());
    AsWrittenPanics();
  }

  /** When yt-dlp fails, nothing is sent back. */
  lemma DownloadFailureScenario()
    ensures var run := GoodRun("funny video").(ytdlp := ToolRun(false, "", "network unreachable"));
      TaskReply(Job(Link(TikTok, ExampleUrl), Source), run) == None
  {
  }
}
