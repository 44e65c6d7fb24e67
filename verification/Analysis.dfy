/** One analysis task, minus its subprocesses: which downloaded file is the
    video, how the analyser's output becomes the reply text, and how the
    stages chain (`analyze_video`, `download_video_and_subs`). */
module Analysis {
  import opened Wrappers
  import opened Text

  /** What one finished subprocess left behind: its exit status and its
      (lossily decoded) standard output and error. */
  datatype ToolRun = ToolRun(success: bool, stdout: string, stderr: string)

  /** Maximum reply length, in UTF-8 bytes. */
  const Limit: nat := 3000
  const TruncationMarker: string := "...\n\n(truncated)"
  const FailurePrefix: string := "Opencode Failed: "

  lemma MarkerIsAscii()
    ensures ByteLen(TruncationMarker) == |TruncationMarker| == 16
  {
    ByteLenAscii(TruncationMarker);
  }

  // ---------------------------------------------------------------------------
  // Reply text from the analyser's run.

  /** The reply text for an analyser run. Successful output is trimmed; if it
      is longer than `Limit` bytes it is cut at the last character boundary at
      or before byte `Limit` and the marker is appended. A failed run yields
      the prefix and the trimmed error output; it is still a reply. */
  function FormatAnalysis(run: ToolRun): (r: string)
    ensures run.success && ByteLen(Trim(run.stdout)) <= Limit ==> r == Trim(run.stdout)
    ensures run.success && ByteLen(Trim(run.stdout)) > Limit ==>
      exists k :: (0 <= k < |Trim(run.stdout)|
        && r == Trim(run.stdout)[..k] + TruncationMarker
        && ByteLen(Trim(run.stdout)[..k]) <= Limit < ByteLen(Trim(run.stdout)[..k + 1]))
    ensures run.success ==> ByteLen(r) <= Limit + |TruncationMarker|
    ensures !run.success ==> r == FailurePrefix + Trim(run.stderr)
  {
    MarkerIsAscii();
    if run.success then
      var trimmed := Trim(run.stdout);
      if ByteLen(trimmed) > Limit then
        var k := FitPrefix(trimmed, Limit);
        ByteLenConcat(trimmed[..k], TruncationMarker);
        trimmed[..k] + TruncationMarker
      else trimmed
    else FailurePrefix + Trim(run.stderr)
  }

  /** When byte `Limit` is a character boundary of the trimmed output (always
      so for ASCII), the kept prefix is exactly `Limit` bytes long, which is
      what `&trimmed[..3000]` takes. */
  lemma TruncatedAtLimit(run: ToolRun)
    requires run.success && ByteLen(Trim(run.stdout)) > Limit
    requires IsCharBoundary(Trim(run.stdout), Limit)
    ensures exists k :: (0 <= k <= |Trim(run.stdout)|
      && ByteLen(Trim(run.stdout)[..k]) == Limit
      && FormatAnalysis(run) == Trim(run.stdout)[..k] + TruncationMarker)
  {
    var t := Trim(run.stdout);
    FitPrefixAtBoundary(t, Limit);
    MarkerIsAscii();
    ByteLenConcat(t[..FitPrefix(t, Limit)], TruncationMarker);
  }

  /** On ASCII output, lengths are character counts: exactly `Limit`
      characters are kept, and output of at most `Limit` characters is
      returned unchanged. */
  lemma {:induction false} AsciiTruncation(run: ToolRun)
    requires run.success
    requires forall i :: 0 <= i < |Trim(run.stdout)| ==> Trim(run.stdout)[i] < '\U{0080}'
    ensures |Trim(run.stdout)| <= Limit ==> FormatAnalysis(run) == Trim(run.stdout)
    ensures |Trim(run.stdout)| > Limit ==> FormatAnalysis(run) == Trim(run.stdout)[..Limit] + TruncationMarker
  {
    var t := Trim(run.stdout);
    ByteLenAscii(t);
    if |t| > Limit {
      AsciiFit(t);
      FormatLong(run, t, Limit);
    } else {
      FormatShort(run, t);
    }
  }

  lemma FormatShort(run: ToolRun, t: string)
    requires run.success && t == Trim(run.stdout) && ByteLen(t) <= Limit
    ensures FormatAnalysis(run) == t
  {
  }

  lemma FormatLong(run: ToolRun, t: string, f: nat)
    requires run.success && t == Trim(run.stdout) && ByteLen(t) > Limit
    requires f == FitPrefix(t, Limit)
    ensures FormatAnalysis(run) == t[..f] + TruncationMarker
  {
  }

  /** On ASCII text longer than `Limit`, the cut keeps exactly `Limit` characters. */
  lemma AsciiFit(t: string)
    requires forall i :: 0 <= i < |t| ==> t[i] < '\U{0080}'
    requires |t| > Limit
    ensures FitPrefix(t, Limit) == Limit
  {
    var f := FitPrefix(t, Limit);
    AsciiPrefixLen(t, f);
    AsciiPrefixLen(t, f + 1);
  }

  lemma AsciiPrefixLen(s: string, k: nat)
    requires forall i :: 0 <= i < |s| ==> s[i] < '\U{0080}'
    requires k <= |s|
    ensures ByteLen(s[..k]) == k
  {
    ByteLenAscii(s[..k]);
  }

  /** What the code as written does with a successful run. */
  datatype Formatted = Written(text: string) | Panic

  /** `analyze_video`'s formatting as written: `&trimmed[..3000]` slices at a
      byte offset, and Rust panics when that offset falls inside a multi-byte
      character, ending the task with no reply. */
  function FormatAsWritten(run: ToolRun): (r: Formatted)
    ensures r.Panic? <==>
      run.success && ByteLen(Trim(run.stdout)) > Limit && !IsCharBoundary(Trim(run.stdout), Limit)
    ensures r.Written? ==> r.text == FormatAnalysis(run)
  {
    if run.success then
      var trimmed := Trim(run.stdout);
      FitPrefixAtBoundary(trimmed, Limit);
      if ByteLen(trimmed) > Limit then
        var k := FitPrefix(trimmed, Limit);
        if ByteLen(trimmed[..k]) == Limit then Written(trimmed[..k] + TruncationMarker) else Panic
      else Written(trimmed)
    else Written(FailurePrefix + Trim(run.stderr))
  }

  /** One ASCII letter, then 1500 copies of 'é' (two bytes each): 3001 bytes,
      character boundaries at the odd byte offsets only. */
  function PanicOutput(): string {
    ['a'] + seq(1500, _ => '\U{00E9}')
  }

  lemma {:induction false} PanicOutputPrefixes(k: nat)
    requires 1 <= k <= |PanicOutput()|
    ensures ByteLen(PanicOutput()[..k]) == 2 * k - 1
  {
    var s := PanicOutput();
    if k == 1 {
      assert s[..1][..0] == [];
    } else {
      PanicOutputPrefixes(k - 1);
      ByteLenPrefixStep(s, k - 1);
    }
  }

  /** The code as written panics on this successful analyser run. */
  lemma AsWrittenPanics()
    ensures FormatAsWritten(ToolRun(true, PanicOutput(), "")) == Panic
  {
    var s := PanicOutput();
    TrimOfTrimmed(s);
    PanicOutputPrefixes(|s|);
    assert s[..|s|] == s;
    if IsCharBoundary(s, Limit) {
      var k :| 0 <= k <= |s| && ByteLen(s[..k]) == Limit;
      if k > 0 {
        PanicOutputPrefixes(k);
      }
    }
  }

  // ---------------------------------------------------------------------------
  // Picking the downloaded files (the `read_dir` loop).

  /** Index of the last '.' in `name`. */
  function LastDot(name: string): (r: Option<nat>)
    ensures r.Some? ==> r.value < |name| && name[r.value] == '.' && '.' !in name[r.value + 1..]
    ensures r.None? ==> '.' !in name
  {
    if |name| == 0 then None
    else if name[|name| - 1] == '.' then Some(|name| - 1)
    else
      var r := LastDot(name[..|name| - 1]);
      assert name == name[..|name| - 1] + [name[|name| - 1]];
      if r.Some? then
        assert name[r.value + 1..] == name[..|name| - 1][r.value + 1..] + [name[|name| - 1]];
        r
      else r
  }

  /** Rust's `Path::extension` of a file name: the text after the last '.',
      unless the name is "..", has no '.', or its only '.' is the first character. */
  function Extension(name: string): Option<string> {
    if name == ".." then None
    else match LastDot(name)
      case None => None
      case Some(i) => if i == 0 then None else Some(name[i + 1..])
  }

  /** Rust's `Path::file_stem` of a file name: the text before the last '.'
      when there is an extension, the whole name otherwise. */
  function Stem(name: string): string {
    if name == ".." then name
    else match LastDot(name)
      case None => name
      case Some(i) => if i == 0 then name else name[..i]
  }

  /** There is no extension exactly for "..", for a name without '.', and for
      a name whose only '.' is its first character; otherwise the extension is
      the dot-free text after a '.' that is not the first character. */
  lemma ExtensionRule(name: string)
    ensures Extension(name).None? <==>
      name == ".." || '.' !in name || (name[0] == '.' && '.' !in name[1..])
    ensures Extension(name).Some? ==> (var e := Extension(name).value;
      '.' !in e && |e| + 1 < |name| && name[|name| - |e| - 1] == '.' && name[|name| - |e|..] == e)
  {
  }

  /** The stem is the whole name when there is no extension; otherwise the
      name is the non-empty stem, a '.', and the extension. */
  lemma StemRule(name: string)
    ensures Extension(name).None? ==> Stem(name) == name
    ensures Extension(name).Some? ==>
      |Stem(name)| > 0 && name == Stem(name) + "." + Extension(name).value
  {
  }

  /** Joining a non-empty stem and a dot-free extension round-trips. */
  lemma JoinSplits(stem: string, ext: string)
    requires |stem| > 0 && '.' !in ext && stem + "." + ext != ".."
    ensures Extension(stem + "." + ext) == Some(ext)
    ensures Stem(stem + "." + ext) == stem
  {
    var name := stem + "." + ext;
    var d := LastDot(name);
    assert name[|stem|] == '.';
    assert d == Some(|stem|);
    assert name[..|stem|] == stem;
    assert name[|stem| + 1..] == ext;
  }

  /** A subtitle the loop moves into the subs directory. */
  predicate IsSubtitle(name: string) {
    Extension(name) == Some("vtt")
  }

  /** A candidate for the video: stem "video" and a non-"vtt" extension. */
  predicate IsVideoFile(name: string) {
    Extension(name).Some? && Extension(name) != Some("vtt") && Stem(name) == "video"
  }

  /** The subtitles are the names longer than ".vtt" that end in ".vtt". */
  lemma SubtitleShape(name: string)
    ensures IsSubtitle(name) <==> |name| > 4 && name[|name| - 4..] == ".vtt"
  {
    if IsSubtitle(name) {
      ExtensionRule(name);
      assert name[|name| - 4..] == [name[|name| - 4]] + name[|name| - 3..];
    } else if |name| > 4 && name[|name| - 4..] == ".vtt" {
      assert name == name[..|name| - 4] + "." + "vtt";
      JoinSplits(name[..|name| - 4], "vtt");
    }
  }

  /** The video candidates are "video." followed by dot-free text other than "vtt". */
  lemma VideoFileShape(name: string)
    ensures IsVideoFile(name) <==>
      |name| >= 6 && name[..6] == "video." && '.' !in name[6..] && name[6..] != "vtt"
  {
    if Extension(name).Some? && Stem(name) == "video" {
      StemRule(name);
      assert name[..6] == "video.";
      assert name[6..] == Extension(name).value;
      ExtensionRule(name);
    } else if |name| >= 6 && name[..6] == "video." && '.' !in name[6..] {
      assert name == "video" + "." + name[6..];
      JoinSplits("video", name[6..]);
    }
  }

  /** What the loop over the directory leaves behind: the subtitle names it
      moved, in listing order, and the last video candidate it saw. */
  datatype Scan = Scan(moved: seq<string>, video: Option<string>)

  function ScanDir(names: seq<string>): (r: Scan)
    ensures forall x :: x in r.moved <==> x in names && IsSubtitle(x)
    ensures |r.moved| <= |names|
    ensures r.video.Some? ==> exists i :: (0 <= i < |names| && names[i] == r.video.value
      && IsVideoFile(names[i]) && forall j :: i < j < |names| ==> !IsVideoFile(names[j]))
    ensures r.video.None? ==> forall i :: 0 <= i < |names| ==> !IsVideoFile(names[i])
    decreases |names|
  {
    if |names| == 0 then Scan([], None)
    else
      var init := names[..|names| - 1];
      var name := names[|names| - 1];
      var prev := ScanDir(init);
      assert names == init + [name];
      if IsSubtitle(name) then Scan(prev.moved + [name], prev.video)
      else if IsVideoFile(name) then Scan(prev.moved, Some(name))
      else prev
  }

  /** No subtitle is ever taken for the video. */
  lemma SubtitleNeverVideo(names: seq<string>)
    ensures ScanDir(names).video.Some? ==> ScanDir(names).video.value !in ScanDir(names).moved
  {
  }

  /** `download_video_and_subs` after yt-dlp has run and the directory was listed. */
  function DownloadResult(ytdlp: ToolRun, listing: seq<string>): (r: Result<string, string>)
    ensures !ytdlp.success ==> r == Failure("yt-dlp failed: " + ytdlp.stderr)
    ensures ytdlp.success ==> (r.Failure? <==> forall i :: 0 <= i < |listing| ==> !IsVideoFile(listing[i]))
    ensures r.Success? ==> r.value in listing && IsVideoFile(r.value)
  {
    if !ytdlp.success then Failure("yt-dlp failed: " + ytdlp.stderr)
    else match ScanDir(listing).video
      case None => Failure("Could not find downloaded video file")
      case Some(v) => Success(v)
  }

  // ---------------------------------------------------------------------------
  // The whole task.

  /** The subprocess outcomes one analysis task sees, in the order it runs them. */
  datatype PipelineRun = PipelineRun(ytdlp: ToolRun, listing: seq<string>, ffmpeg: ToolRun, opencode: ToolRun)

  /** How one analysis task ends: with reply text, with an error that is only
      logged, or by panicking, which also sends nothing. */
  datatype Outcome = Done(text: string) | Error(message: string) | Panicked

  /** `analyze_video`: download, find the video, extract frames, analyse. An
      error from the first three stages is the task's error; the analyser's
      own failure becomes reply text; the formatting is the code as written,
      so output whose byte `Limit` is not a character boundary panics. */
  function AnalyzeVideo(run: PipelineRun): (r: Outcome)
    ensures DownloadResult(run.ytdlp, run.listing).Failure? ==>
      r == Error(DownloadResult(run.ytdlp, run.listing).error)
    ensures DownloadResult(run.ytdlp, run.listing).Success? && !run.ffmpeg.success ==>
      r == Error("ffmpeg failed: " + run.ffmpeg.stderr)
    ensures r.Panicked? <==> (DownloadResult(run.ytdlp, run.listing).Success? && run.ffmpeg.success
      && run.opencode.success && ByteLen(Trim(run.opencode.stdout)) > Limit
      && !IsCharBoundary(Trim(run.opencode.stdout), Limit))
    ensures r.Done? <==> (DownloadResult(run.ytdlp, run.listing).Success? && run.ffmpeg.success
      && FormatAsWritten(run.opencode).Written?)
    ensures r.Done? ==> r.text == FormatAnalysis(run.opencode)
  {
    match DownloadResult(run.ytdlp, run.listing)
    case Failure(e) => Error(e)
    case Success(_) =>
      if !run.ffmpeg.success then Error("ffmpeg failed: " + run.ffmpeg.stderr)
      else match FormatAsWritten(run.opencode)
        case Written(text) => Done(text)
        case Panic => Panicked
  }

  /** A failing analyser still produces a reply, naming the failure. */
  lemma AnalyserFailureStillReplies(run: PipelineRun)
    requires DownloadResult(run.ytdlp, run.listing).Success? && run.ffmpeg.success
    requires !run.opencode.success
    ensures AnalyzeVideo(run) == Done(FailurePrefix + Trim(run.opencode.stderr))
  {
  }
}
