/** `VideoGenerator.generate` (the second definition, which the module
    exports) and `buildCommand`: the images are written to FFmpeg's virtual
    file system under numbered names, a concat list gives each image its
    duration, FFmpeg is run with a fixed argument list, and progress is
    reported stage by stage. FFmpeg itself, `fetchFile` and the loader are
    not modelled: the file-system calls and the run are recorded as steps of
    a trace, and the progress FFmpeg reports is a parameter. */
module VideoGenerator {
  import opened Strings
  import opened JsValues

  /** An image to put in the video: `{ dataUrl, caption }`. */
  datatype Image = Image(dataUrl: string, caption: string)

  /** The fields of `config` that are read. The durations are whole
      seconds. */
  datatype Config = Config(screenshotDuration: nat, commentDuration: nat, resolution: Json)

  const ScreenshotMark: string := "视频截图"
  const ConcatFile: string := "inputs.txt"
  const OutputFile: string := "output.mp4"
  const DefaultResolution: string := "1080x1080"

  // ---------------------------------------------------------------------
  // File names
  // ---------------------------------------------------------------------

  /** `img${String(i).padStart(3, '0')}.png`. */
  function FileName(i: nat): string
  {
    "img" + PadStart(NatToString(i), 3, '0') + ".png"
  }

  /** The digits between `img` and `.png` read back as the index. */
  lemma FileNameDigits(i: nat)
    ensures var f := FileName(i);
      && |f| >= 10 && f[..3] == "img" && f[|f| - 4..] == ".png"
      && AllDigits(f[3..|f| - 4]) && DigitsValue(f[3..|f| - 4]) == i
  {
    var s := NatToString(i);
    NatToStringRoundTrip(i);
    var p := PadStart(s, 3, '0');
    if |s| < 3 {
      LeadingZerosValue(3 - |s|, s);
      assert p == Repeat('0', 3 - |s|) + s;
    }
    var f := FileName(i);
    assert f == "img" + p + ".png";
    assert f[3..|f| - 4] == p;
  }

  /** Distinct images get distinct file names, and none of them is the
      concat list. */
  lemma FileNameInjective(i: nat, j: nat)
    ensures FileName(i) == FileName(j) <==> i == j
    ensures FileName(i) != ConcatFile
  {
    FileNameDigits(i);
    FileNameDigits(j);
    var f := FileName(i);
    assert f[1] == 'm' && ConcatFile[1] == 'n';
  }

  // ---------------------------------------------------------------------
  // Durations and the concat list
  // ---------------------------------------------------------------------

  /** `img.caption.includes('视频截图')`. */
  predicate IsScreenshot(img: Image)
  {
    Contains(img.caption, ScreenshotMark)
  }

  /** The time an image stays on screen. */
  function DurationOf(img: Image, config: Config): nat
  {
    if IsScreenshot(img) then config.screenshotDuration else config.commentDuration
  }

  function FileLine(i: nat): string
  {
    "file '" + FileName(i) + "'"
  }

  function DurationLine(d: nat): string
  {
    "duration " + NatToString(d)
  }

  /** `concatFileContent` after the first `k` images. */
  function ConcatContent(images: seq<Image>, config: Config, k: nat): string
    requires k <= |images|
  {
    if k == 0 then ""
    else
      ConcatContent(images, config, k - 1)
        + FileLine(k - 1) + "\n" + DurationLine(DurationOf(images[k - 1], config)) + "\n"
  }

  /** The lines the concat demuxer reads for the first `k` images: a `file`
      line and a `duration` line per image, in order. */
  function ConcatLines(images: seq<Image>, config: Config, k: nat): (r: seq<string>)
    requires k <= |images|
    ensures |r| == 2 * k
    ensures forall i :: 0 <= i < k ==>
      r[2 * i] == FileLine(i) && r[2 * i + 1] == DurationLine(DurationOf(images[i], config))
  {
    if k == 0 then []
    else ConcatLines(images, config, k - 1) + [FileLine(k - 1), DurationLine(DurationOf(images[k - 1], config))]
  }

  lemma FileLineOneLine(i: nat)
    ensures '\n' !in FileLine(i)
  {
    var p := PadStart(NatToString(i), 3, '0');
    assert '\n' !in p by {
      NatToStringRoundTrip(i);
      assert forall c :: c in NatToString(i) ==> IsDigit(c);
    }
    assert FileLine(i) == "file 'img" + p + ".png'";
  }

  lemma DurationLineOneLine(d: nat)
    ensures '\n' !in DurationLine(d)
  {
    NatToStringRoundTrip(d);
    assert forall c :: c in NatToString(d) ==> IsDigit(c);
  }

  /** Read line by line, the concat list is exactly its `file` and
      `duration` lines, each ended by a newline. */
  lemma {:induction false} ConcatContentLines(images: seq<Image>, config: Config, k: nat)
    requires k <= |images|
    ensures Split(ConcatContent(images, config, k), '\n') == ConcatLines(images, config, k) + [""]
  {
    if k > 0 {
      var prev := ConcatContent(images, config, k - 1);
      var a := FileLine(k - 1);
      var b := DurationLine(DurationOf(images[k - 1], config));
      var lines := ConcatLines(images, config, k - 1);
      assert ConcatContent(images, config, k) == prev + a + "\n" + b + "\n";
      assert ConcatLines(images, config, k) == lines + [a] + [b];
      ConcatContentLines(images, config, k - 1);
      FileLineOneLine(k - 1);
      DurationLineOneLine(DurationOf(images[k - 1], config));
      SplitAddLine(prev, lines, a, '\n');
      SplitAddLine(prev + a + "\n", lines + [a], b, '\n');
    }
  }

  /** `images.reduce((acc, img) => acc + duration(img), 0)`. */
  function TotalDuration(images: seq<Image>, config: Config): nat
  {
    if |images| == 0 then 0
    else TotalDuration(images[..|images| - 1], config) + DurationOf(images[|images| - 1], config)
  }

  /** The seconds a line of the concat list adds: those of a `duration`
      line, none for any other line. */
  function LineSeconds(line: string): nat
  {
    if |line| >= 9 && line[..9] == "duration " && AllDigits(line[9..]) then DigitsValue(line[9..]) else 0
  }

  function ListedSeconds(lines: seq<string>): nat
  {
    if |lines| == 0 then 0 else ListedSeconds(lines[..|lines| - 1]) + LineSeconds(lines[|lines| - 1])
  }

  lemma FileLineSeconds(i: nat)
    ensures LineSeconds(FileLine(i)) == 0
  {
    var f := FileLine(i);
    assert f[0] == 'f';
    assert |f| >= 9 ==> f[..9][0] == 'f';
  }

  lemma DurationLineSeconds(d: nat)
    ensures LineSeconds(DurationLine(d)) == d
  {
    NatToStringRoundTrip(d);
    var line := DurationLine(d);
    assert line[..9] == "duration " && line[9..] == NatToString(d);
  }

  lemma ListedSecondsPair(lines: seq<string>, x: string, y: string)
    ensures ListedSeconds(lines + [x, y]) == ListedSeconds(lines) + LineSeconds(x) + LineSeconds(y)
  {
    var all := lines + [x, y];
    assert all[..|all| - 1] == lines + [x];
    assert (lines + [x])[..|lines|] == lines;
  }

  /** The total the progress estimate divides by is the total length the
      concat list asks for. */
  lemma {:induction false} TotalDurationListed(images: seq<Image>, config: Config, k: nat)
    requires k <= |images|
    ensures ListedSeconds(ConcatLines(images, config, k)) == TotalDuration(images[..k], config)
  {
    if k == 0 {
      assert images[..k] == [];
    } else {
      var d := DurationOf(images[k - 1], config);
      assert images[..k][..k - 1] == images[..k - 1];
      assert TotalDuration(images[..k], config) == TotalDuration(images[..k - 1], config) + d;
      assert ConcatLines(images, config, k) == ConcatLines(images, config, k - 1) + [FileLine(k - 1), DurationLine(d)];
      TotalDurationListed(images, config, k - 1);
      ListedSecondsPair(ConcatLines(images, config, k - 1), FileLine(k - 1), DurationLine(d));
      FileLineSeconds(k - 1);
      DurationLineSeconds(d);
    }
  }

  // ---------------------------------------------------------------------
  // The FFmpeg command
  // ---------------------------------------------------------------------

  /** `${Number(s)}` for a string of decimal digits (the empty string is 0);
      every other string is rendered as `NaN`. */
  function NumberText(s: string): string
  {
    if AllDigits(s) then NatToString(DigitsValue(s)) else "NaN"
  }

  /** `resolution.split('x').map(Number)` destructured into width and
      height, each as the template literal renders it. */
  function Dimensions(resolution: string): (string, string)
  {
    var parts := Split(resolution, 'x');
    (NumberText(parts[0]), if |parts| >= 2 then NumberText(parts[1]) else "undefined")
  }

  /** The `-vf` filter: scale to fit, then pad to the target size in black. */
  function ScaleFilter(w: string, h: string): string
  {
    "scale=" + w + ":" + h + ":force_original_aspect_ratio=decrease,pad=" + w + ":" + h + ":-1:-1:black"
  }

  /** `buildCommand(config)`; a truthy resolution that is not a string has no
      `split` and raises. */
  function BuildCommand(config: Config): (r: Result<seq<string>>)
    ensures r.Err? <==> Truthy(config.resolution) && !config.resolution.JStr?
  {
    var resolution := if Truthy(config.resolution) then config.resolution else JStr(DefaultResolution);
    if !resolution.JStr? then Err("resolution.split is not a function")
    else
      var (w, h) := Dimensions(resolution.s);
      Ok(["-f", "concat", "-safe", "0", "-i", ConcatFile, "-vf", ScaleFilter(w, h),
          "-c:v", "libx264", "-r", "30", "-pix_fmt", "yuv420p", "-y", OutputFile])
  }

  /** The command reads the concat list with the concat demuxer, applies
      the scaling filter, encodes H.264 at 30 frames per second in
      `yuv420p`, and overwrites `output.mp4`: sixteen arguments, all fixed
      but the filter. */
  lemma BuildCommandShape(config: Config)
    requires BuildCommand(config).Ok?
    ensures var args := BuildCommand(config).value;
      && |args| == 16
      && args[..7] == ["-f", "concat", "-safe", "0", "-i", ConcatFile, "-vf"]
      && args[8..] == ["-c:v", "libx264", "-r", "30", "-pix_fmt", "yuv420p", "-y", OutputFile]
  {
  }

  lemma NoX(n: nat)
    ensures 'x' !in NatToString(n)
  {
    NatToStringRoundTrip(n);
    assert forall c :: c in NatToString(n) ==> IsDigit(c);
  }

  lemma NumberTextDecimal(n: nat)
    ensures NumberText(NatToString(n)) == NatToString(n)
  {
    NatToStringRoundTrip(n);
  }

  lemma DimensionsDecimal(width: nat, height: nat)
    ensures Dimensions(NatToString(width) + "x" + NatToString(height)) == (NatToString(width), NatToString(height))
  {
    NoX(width);
    NoX(height);
    SplitPair(NatToString(width), NatToString(height), 'x');
    NumberTextDecimal(width);
    NumberTextDecimal(height);
  }

  /** A resolution `WxH` written in decimal puts `W` and `H` into the
      filter. */
  lemma BuildCommandEmbeds(config: Config, width: nat, height: nat)
    requires config.resolution == JStr(NatToString(width) + "x" + NatToString(height))
    ensures BuildCommand(config).Ok?
    ensures BuildCommand(config).value[7] == ScaleFilter(NatToString(width), NatToString(height))
  {
    BuildCommandFilter(config);
    DimensionsDecimal(width, height);
  }

  /** A non-empty string resolution yields the filter built from its two
      `x`-separated dimensions. */
  lemma BuildCommandFilter(config: Config)
    requires config.resolution.JStr? && config.resolution.s != ""
    ensures BuildCommand(config).Ok?
    ensures BuildCommand(config).value[7] == ScaleFilter(Dimensions(config.resolution.s).0, Dimensions(config.resolution.s).1)
  {
  }

  /** Without a resolution the video is 1080 by 1080. */
  lemma BuildCommandDefault(config: Config)
    requires !Truthy(config.resolution)
    ensures BuildCommand(config).Ok?
    ensures BuildCommand(config).value[7] == ScaleFilter("1080", "1080")
  {
    DefaultIs1080();
    DimensionsDecimal(1080, 1080);
  }

  lemma DefaultIs1080()
    ensures NatToString(1080) == "1080"
    ensures DefaultResolution == NatToString(1080) + "x" + NatToString(1080)
  {
    assert NatToString(1) == "1";
    assert NatToString(10) == "10";
    assert NatToString(108) == "108";
  }

  // ---------------------------------------------------------------------
  // Progress
  // ---------------------------------------------------------------------

  /** `Math.round(x)`: the nearest integer, halves rounded up. */
  function Round(x: real): int
  {
    (x + 0.5).Floor
  }

  /** The percentage reported after writing image `i` of `n`. */
  function WritePercent(i: nat, n: nat): int
    requires i < n
  {
    Round((i + 1) as real / n as real * 100.0)
  }

  /** Writing progress stays within 0 to 100, never goes back, and ends at
      100. */
  lemma WritePercentBounds(i: nat, j: nat, n: nat)
    requires i <= j < n
    ensures 0 <= WritePercent(i, n) <= WritePercent(j, n) <= 100
    ensures j == n - 1 ==> WritePercent(j, n) == 100
  {
    var x := (i + 1) as real / n as real * 100.0;
    var y := (j + 1) as real / n as real * 100.0;
    assert (i + 1) as real / n as real <= (j + 1) as real / n as real;
    assert (j + 1) as real / n as real <= 1.0;
    assert 0.0 <= x <= y <= 100.0;
    if j == n - 1 {
      assert (j + 1) as real / n as real == 1.0;
    }
  }

  /** A reported percentage: absent, a number, `NaN` or `-Infinity`. */
  datatype Percentage = Absent | Percent(n: int) | NotANumber | MinusInfinity

  /** `Math.min(100, Math.round((time / totalDuration) * 100))` for the `time`
      of an FFmpeg progress event, which may be missing (`undefined` gives
      `NaN`). A zero total divides to `Infinity` (capped to 100), to
      `-Infinity` for a negative time, or to `NaN` at time 0; a negative time
      is not clamped from below. */
  function TranscodePercent(time: Option<real>, total: nat): Percentage
  {
    match time
    case None => NotANumber
    case Some(t) =>
      if total == 0 then (if t == 0.0 then NotANumber else if t > 0.0 then Percent(100) else MinusInfinity)
      else
        var p := Round(t / total as real * 100.0);
        Percent(if p < 100 then p else 100)
  }

  /** For times within the video the transcoding percentage never exceeds
      100, is 0 at the start, 100 from the end of the video on, and never goes
      back as time advances. */
  lemma TranscodePercentBounds(t1: real, t2: real, total: nat)
    requires 0.0 <= t1 <= t2 && total > 0
    ensures TranscodePercent(Some(t1), total).Percent? && TranscodePercent(Some(t2), total).Percent?
    ensures 0 <= TranscodePercent(Some(t1), total).n <= TranscodePercent(Some(t2), total).n <= 100
    ensures t1 == 0.0 ==> TranscodePercent(Some(t1), total).n == 0
    ensures t2 >= total as real ==> TranscodePercent(Some(t2), total).n == 100
  {
    var x := t1 / total as real * 100.0;
    var y := t2 / total as real * 100.0;
    assert t1 / total as real <= t2 / total as real;
    assert 0.0 <= x <= y;
    if t2 >= total as real {
      assert t2 / total as real >= 1.0;
    }
  }

  /** The percentage is a number exactly when the event has a time and the
      division is finite or positive; it is never above 100, and a time
      before the start by at least 1% of the total gives a negative one. */
  lemma TranscodePercentAnyTime(time: Option<real>, total: nat)
    ensures TranscodePercent(time, total).Percent? <==> time.Some? && (total > 0 || time.value > 0.0)
    ensures TranscodePercent(time, total).Percent? ==> TranscodePercent(time, total).n <= 100
    ensures time.Some? && total > 0 && time.value * 100.0 <= -(total as real) ==> TranscodePercent(time, total).n < 0
  {
    if time.Some? && total > 0 && time.value * 100.0 <= -(total as real) {
      var x := time.value / total as real * 100.0;
      assert x == time.value * 100.0 / total as real;
      assert x <= -1.0;
    }
  }

  /** The text of a percentage in a template literal. */
  function PercentText(p: Percentage): string
  {
    match p
    case Absent => "undefined"
    case Percent(n) => IntToString(n)
    case NotANumber => "NaN"
    case MinusInfinity => "-Infinity"
  }

  // ---------------------------------------------------------------------
  // The trace of `generate`
  // ---------------------------------------------------------------------

  datatype Stage = LoadingFfmpeg | WritingFiles | GeneratingCommand | Transcoding | ReadingResult | CleaningUp

  /** The position of a stage in the order `generate` goes through them. */
  function Rank(s: Stage): nat
  {
    match s
    case LoadingFfmpeg => 0
    case WritingFiles => 1
    case GeneratingCommand => 2
    case Transcoding => 3
    case ReadingResult => 4
    case CleaningUp => 5
  }

  /** A `progressCallback` argument. */
  datatype Progress = Progress(status: Stage, text: string, percentage: Percentage)

  /** A call on FFmpeg: a file-system operation or the run. */
  datatype FsOp =
    | WriteImage(name: string, dataUrl: string)
    | WriteText(name: string, content: string)
    | Run(args: seq<string>)
    | ReadFile(name: string)
    | Unlink(name: string)

  /** What `generate` does, one step at a time. */
  datatype Step = Report(progress: Progress) | Fs(op: FsOp)

  /** The loader's progress reports, one per `ratio` it reports. */
  function LoadSteps(ratios: seq<real>): (r: seq<Step>)
    ensures |r| == |ratios|
  {
    seq(|ratios|, i requires 0 <= i < |ratios| =>
      var p := Round(ratios[i] * 100.0);
      Report(Progress(LoadingFfmpeg, "加载中... " + IntToString(p) + "%", Percent(p))))
  }

  /** The steps of the writing loop for the first `k` images: the image is
      written, then progress is reported. */
  function WriteSteps(images: seq<Image>, k: nat): (r: seq<Step>)
    requires k <= |images|
    ensures |r| == 2 * k
  {
    if k == 0 then []
    else
      var n := |images|;
      WriteSteps(images, k - 1)
        + [Fs(WriteImage(FileName(k - 1), images[k - 1].dataUrl)),
           Report(Progress(WritingFiles, "写入中... (" + NatToString(k) + "/" + NatToString(n) + ")",
                           Percent(WritePercent(k - 1, n))))]
  }

  /** FFmpeg's progress reports while it runs, one per `time` it reports. */
  function TranscodeSteps(times: seq<Option<real>>, total: nat): (r: seq<Step>)
    ensures |r| == |times|
  {
    seq(|times|, i requires 0 <= i < |times| =>
      var p := TranscodePercent(times[i], total);
      Report(Progress(Transcoding, "视频合成中... " + PercentText(p) + "%", p)))
  }

  /** The unlinks of the cleanup loop for the first `k` images. */
  function CleanSteps(k: nat): (r: seq<Step>)
    ensures |r| == k
  {
    if k == 0 then [] else CleanSteps(k - 1) + [Fs(Unlink(FileName(k - 1)))]
  }

  /** Loading FFmpeg: the first report, then the loader's. */
  function LoadBlock(ratios: seq<real>): seq<Step>
  {
    [Report(Progress(LoadingFfmpeg, "正在加载FFmpeg核心...", Absent))] + LoadSteps(ratios)
  }

  /** Writing the images and then the concat list, whose text is
      `content`. */
  function WriteBlock(images: seq<Image>, content: string): seq<Step>
  {
    [Report(Progress(WritingFiles, "正在写入图片素材...", Percent(0)))] + WriteSteps(images, |images|)
      + [Fs(WriteText(ConcatFile, content))]
  }

  function CommandBlock(): seq<Step>
  {
    [Report(Progress(GeneratingCommand, "正在生成处理指令...", Absent))]
  }

  /** Running FFmpeg, with the progress it reports. */
  function TranscodeBlock(command: seq<string>, times: seq<Option<real>>, total: nat): seq<Step>
  {
    [Fs(Run(command))] + TranscodeSteps(times, total)
  }

  function ReadBlock(): seq<Step>
  {
    [Report(Progress(ReadingResult, "正在读取成品...", Absent)), Fs(ReadFile(OutputFile))]
  }

  /** Deleting the image files and then the concat list. */
  function CleanBlock(n: nat): seq<Step>
  {
    [Report(Progress(CleaningUp, "正在清理临时文件...", Absent))] + CleanSteps(n) + [Fs(Unlink(ConcatFile))]
  }

  /** The first three stages: loading, writing, generating the command. */
  function Preparation(images: seq<Image>, config: Config, ratios: seq<real>): seq<Step>
  {
    LoadBlock(ratios) + WriteBlock(images, ConcatContent(images, config, |images|)) + CommandBlock()
  }

  /** The trace of `generate` and the command it ran, or the error
      `buildCommand` raised after the first three stages. */
  function GenerateSpec(images: seq<Image>, config: Config, ratios: seq<real>, times: seq<Option<real>>): (seq<Step>, Result<seq<string>>)
  {
    match BuildCommand(config)
    case Err(e) => (Preparation(images, config, ratios), Err(e))
    case Ok(command) =>
      (Preparation(images, config, ratios) + TranscodeBlock(command, times, TotalDuration(images, config))
         + ReadBlock() + CleanBlock(|images|), Ok(command))
  }

  /** `VideoGenerator.generate(images, config, progressCallback)`: `ratios`
      are the loader's progress reports and `times` FFmpeg's. */
  method Generate(images: seq<Image>, config: Config, ratios: seq<real>, times: seq<Option<real>>)
    returns (trace: seq<Step>, result: Result<seq<string>>)
    ensures (trace, result) == GenerateSpec(images, config, ratios, times)
  {
    var n := |images|;
    trace := [Report(Progress(LoadingFfmpeg, "正在加载FFmpeg核心...", Absent))] + LoadSteps(ratios);
    var writes, concatFileContent := WriteImages(images, config);
    trace := trace + ([Report(Progress(WritingFiles, "正在写入图片素材...", Percent(0)))] + writes
      + [Fs(WriteText(ConcatFile, concatFileContent))]);
    trace := trace + [Report(Progress(GeneratingCommand, "正在生成处理指令...", Absent))];
    var command := BuildCommand(config);
    if command.Err? {
      return trace, Err(command.message);
    }
    trace := trace + ([Fs(Run(command.value))] + TranscodeSteps(times, TotalDuration(images, config)));
    trace := trace + [Report(Progress(ReadingResult, "正在读取成品...", Absent)), Fs(ReadFile(OutputFile))];
    var unlinks := CleanUp(n);
    trace := trace + ([Report(Progress(CleaningUp, "正在清理临时文件...", Absent))] + unlinks + [Fs(Unlink(ConcatFile))]);
    result := command;
  }

  /** The writing loop of `generate`: each image is written under its file
      name and its lines are added to the concat list. */
  method WriteImages(images: seq<Image>, config: Config) returns (steps: seq<Step>, concatFileContent: string)
    ensures steps == WriteSteps(images, |images|)
    ensures concatFileContent == ConcatContent(images, config, |images|)
  {
    var n := |images|;
    steps := [];
    concatFileContent := "";
    var i := 0;
    while i < n
      invariant 0 <= i <= n
      invariant steps == WriteSteps(images, i)
      invariant concatFileContent == ConcatContent(images, config, i)
    {
      var fileName := FileName(i);
      steps := steps + [Fs(WriteImage(fileName, images[i].dataUrl))];
      var duration := if IsScreenshot(images[i]) then config.screenshotDuration else config.commentDuration;
      concatFileContent := concatFileContent + FileLine(i) + "\n";
      concatFileContent := concatFileContent + DurationLine(duration) + "\n";
      steps := steps + [Report(Progress(WritingFiles, "写入中... (" + NatToString(i + 1) + "/" + NatToString(n) + ")",
                                        Percent(WritePercent(i, n))))];
      assert steps == WriteSteps(images, i + 1);
      i := i + 1;
    }
  }

  /** The cleanup loop of `generate`: each image file is deleted. */
  method CleanUp(n: nat) returns (steps: seq<Step>)
    ensures steps == CleanSteps(n)
  {
    steps := [];
    var i := 0;
    while i < n
      invariant 0 <= i <= n
      invariant steps == CleanSteps(i)
    {
      steps := steps + [Fs(Unlink(FileName(i)))];
      i := i + 1;
    }
  }

  // ---------------------------------------------------------------------
  // Properties of the trace
  // ---------------------------------------------------------------------

  /** Progress is reported stage by stage: no report names a stage earlier
      than one already reported. */
  predicate StagesOrdered(trace: seq<Step>)
  {
    forall p, q :: 0 <= p < q < |trace| && trace[p].Report? && trace[q].Report? ==>
      Rank(trace[p].progress.status) <= Rank(trace[q].progress.status)
  }

  /** Every report in `steps` is about stage `stage`. */
  predicate InStage(steps: seq<Step>, stage: Stage)
  {
    forall p :: 0 <= p < |steps| && steps[p].Report? ==> steps[p].progress.status == stage
  }

  predicate RanksAtMost(trace: seq<Step>, r: nat)
  {
    forall p :: 0 <= p < |trace| && trace[p].Report? ==> Rank(trace[p].progress.status) <= r
  }

  lemma OrderedExtend(trace: seq<Step>, r: nat, steps: seq<Step>, stage: Stage)
    requires StagesOrdered(trace) && RanksAtMost(trace, r) && r <= Rank(stage) && InStage(steps, stage)
    ensures StagesOrdered(trace + steps) && RanksAtMost(trace + steps, Rank(stage))
  {
    var all := trace + steps;
    forall p | 0 <= p < |all| && all[p].Report?
      ensures Rank(all[p].progress.status) <= Rank(stage)
    {
      if p >= |trace| {
        assert all[p] == steps[p - |trace|];
      }
    }
    forall p, q | 0 <= p < q < |all| && all[p].Report? && all[q].Report?
      ensures Rank(all[p].progress.status) <= Rank(all[q].progress.status)
    {
      if q >= |trace| {
        assert all[q] == steps[q - |trace|];
        if p >= |trace| {
          assert all[p] == steps[p - |trace|];
        }
      }
    }
  }

  /** Blocks that each report one stage, in the order of the stages, make an
      ordered trace, whether it stops after the third or goes on to the
      sixth. */
  lemma BlocksOrdered(load: seq<Step>, write: seq<Step>, command: seq<Step>,
                      transcode: seq<Step>, read: seq<Step>, clean: seq<Step>)
    requires InStage(load, LoadingFfmpeg) && InStage(write, WritingFiles) && InStage(command, GeneratingCommand)
    requires InStage(transcode, Transcoding) && InStage(read, ReadingResult) && InStage(clean, CleaningUp)
    ensures StagesOrdered(load + write + command)
    ensures StagesOrdered(load + write + command + transcode + read + clean)
  {
    OrderedExtend([], 0, load, LoadingFfmpeg);
    assert [] + load == load;
    OrderedExtend(load, 0, write, WritingFiles);
    OrderedExtend(load + write, 1, command, GeneratingCommand);
    OrderedExtend(load + write + command, 2, transcode, Transcoding);
    OrderedExtend(load + write + command + transcode, 3, read, ReadingResult);
    OrderedExtend(load + write + command + transcode + read, 4, clean, CleaningUp);
  }

  lemma {:induction false} WriteStepsInStage(images: seq<Image>, k: nat)
    requires k <= |images|
    ensures InStage(WriteSteps(images, k), WritingFiles)
  {
    if k > 0 {
      WriteStepsInStage(images, k - 1);
      var prev := WriteSteps(images, k - 1);
      var all := WriteSteps(images, k);
      forall p | 0 <= p < |all| && all[p].Report?
        ensures all[p].progress.status == WritingFiles
      {
        if p < |prev| {
          assert all[p] == prev[p];
        }
      }
    }
  }

  lemma {:induction false} CleanStepsInStage(k: nat)
    ensures forall p :: 0 <= p < |CleanSteps(k)| ==> CleanSteps(k)[p].Fs?
  {
    if k > 0 {
      CleanStepsInStage(k - 1);
      var prev := CleanSteps(k - 1);
      var all := CleanSteps(k);
      forall p | 0 <= p < |all|
        ensures all[p].Fs?
      {
        if p < |prev| {
          assert all[p] == prev[p];
        }
      }
    }
  }

  lemma LoadBlockInStage(ratios: seq<real>)
    ensures InStage(LoadBlock(ratios), LoadingFfmpeg)
  {
    var b := LoadBlock(ratios);
    forall p | 0 <= p < |b| && b[p].Report?
      ensures b[p].progress.status == LoadingFfmpeg
    {
      if p >= 1 {
        assert b[p] == LoadSteps(ratios)[p - 1];
      }
    }
  }

  lemma WriteBlockInStage(images: seq<Image>, content: string)
    ensures InStage(WriteBlock(images, content), WritingFiles)
  {
    var b := WriteBlock(images, content);
    var w := WriteSteps(images, |images|);
    WriteStepsInStage(images, |images|);
    forall p | 0 <= p < |b| && b[p].Report?
      ensures b[p].progress.status == WritingFiles
    {
      if 1 <= p <= |w| {
        assert b[p] == w[p - 1];
      }
    }
  }

  lemma TranscodeBlockInStage(command: seq<string>, times: seq<Option<real>>, total: nat)
    ensures InStage(TranscodeBlock(command, times, total), Transcoding)
  {
    var b := TranscodeBlock(command, times, total);
    forall p | 0 <= p < |b| && b[p].Report?
      ensures b[p].progress.status == Transcoding
    {
      assert b[p] == TranscodeSteps(times, total)[p - 1];
    }
  }

  lemma CleanBlockInStage(n: nat)
    ensures InStage(CleanBlock(n), CleaningUp)
  {
    var b := CleanBlock(n);
    var c := CleanSteps(n);
    CleanStepsInStage(n);
    forall p | 0 <= p < |b|
      ensures b[p].Report? ==> b[p].progress.status == CleaningUp
    {
      if 1 <= p <= |c| {
        assert b[p] == c[p - 1];
      }
    }
  }

  /** `generate` goes through its stages in order, whether or not
      `buildCommand` fails. */
  lemma GenerateStagesOrdered(images: seq<Image>, config: Config, ratios: seq<real>, times: seq<Option<real>>)
    ensures StagesOrdered(GenerateSpec(images, config, ratios, times).0)
  {
    var command := if BuildCommand(config).Ok? then BuildCommand(config).value else [];
    BlocksInStage(images, ConcatContent(images, config, |images|), ratios, command, times, TotalDuration(images, config));
    GenerateBlocks(images, config, ratios, times);
  }

  /** The blocks of `generate` in order: each block reports one stage. */
  lemma BlocksInStage(images: seq<Image>, content: string, ratios: seq<real>, command: seq<string>, times: seq<Option<real>>, total: nat)
    ensures var prep := LoadBlock(ratios) + WriteBlock(images, content) + CommandBlock();
            StagesOrdered(prep) && StagesOrdered(prep + TranscodeBlock(command, times, total) + ReadBlock() + CleanBlock(|images|))
  {
    LoadBlockInStage(ratios);
    WriteBlockInStage(images, content);
    TranscodeBlockInStage(command, times, total);
    CleanBlockInStage(|images|);
    assert InStage(ReadBlock(), ReadingResult) by {
      assert ReadBlock()[1].Fs?;
    }
    BlocksOrdered(LoadBlock(ratios), WriteBlock(images, content), CommandBlock(),
                  TranscodeBlock(command, times, total), ReadBlock(), CleanBlock(|images|));
  }

  /** The trace of `generate` as its blocks, with or without the stages
      after `buildCommand`. */
  lemma GenerateBlocks(images: seq<Image>, config: Config, ratios: seq<real>, times: seq<Option<real>>)
    ensures var command := if BuildCommand(config).Ok? then BuildCommand(config).value else [];
            var prep := LoadBlock(ratios) + WriteBlock(images, ConcatContent(images, config, |images|)) + CommandBlock();
            GenerateSpec(images, config, ratios, times).0 ==
              if BuildCommand(config).Ok?
              then prep + TranscodeBlock(command, times, TotalDuration(images, config)) + ReadBlock() + CleanBlock(|images|)
              else prep
  {
  }

  /** The image file a step writes, if any. */
  function WrittenBy(s: Step): seq<string>
  {
    if s.Fs? && s.op.WriteImage? then [s.op.name] else []
  }

  /** The file a step deletes, if any. */
  function UnlinkedBy(s: Step): seq<string>
  {
    if s.Fs? && s.op.Unlink? then [s.op.name] else []
  }

  /** The names of the image files written, in order. */
  function Written(trace: seq<Step>): seq<string>
  {
    if |trace| == 0 then [] else Written(trace[..|trace| - 1]) + WrittenBy(trace[|trace| - 1])
  }

  /** The names of the files deleted, in order. */
  function Unlinked(trace: seq<Step>): seq<string>
  {
    if |trace| == 0 then [] else Unlinked(trace[..|trace| - 1]) + UnlinkedBy(trace[|trace| - 1])
  }

  lemma {:induction false} FilesAppend(a: seq<Step>, b: seq<Step>)
    ensures Written(a + b) == Written(a) + Written(b)
    ensures Unlinked(a + b) == Unlinked(a) + Unlinked(b)
    decreases |b|
  {
    if |b| == 0 {
      assert a + b == a;
    } else {
      var b', s := b[..|b| - 1], b[|b| - 1];
      FilesAppendLast(a, b);
      FilesAppend(a, b');
      AppendAssoc(Written(a), Written(b'), WrittenBy(s));
      AppendAssoc(Unlinked(a), Unlinked(b'), UnlinkedBy(s));
    }
  }

  lemma FilesAppendLast(a: seq<Step>, b: seq<Step>)
    requires |b| > 0
    ensures Written(a + b) == Written(a + b[..|b| - 1]) + WrittenBy(b[|b| - 1])
    ensures Unlinked(a + b) == Unlinked(a + b[..|b| - 1]) + UnlinkedBy(b[|b| - 1])
  {
    assert (a + b)[..|a + b| - 1] == a + b[..|b| - 1];
  }

  lemma FilesSingle(s: Step)
    ensures Written([s]) == WrittenBy(s) && Unlinked([s]) == UnlinkedBy(s)
  {
    assert [s][..0] == [];
  }

  /** A block that opens with a report and closes with a step that writes
      no image names the files of its middle, and the file the closing step
      deletes, if any. */
  lemma FilesFramed(b: seq<Step>, middle: seq<Step>)
    requires |b| >= 2 && b[1..|b| - 1] == middle
    requires b[0].Report? && WrittenBy(b[|b| - 1]) == []
    ensures Written(b) == Written(middle)
    ensures Unlinked(b) == Unlinked(middle) + UnlinkedBy(b[|b| - 1])
  {
    var last := b[|b| - 1];
    assert b == [b[0]] + middle + [last];
    FilesSingle(b[0]);
    FilesSingle(last);
    FilesAppend([b[0]], middle);
    FilesAppend([b[0]] + middle, [last]);
    assert [] + Written(middle) + [] == Written(middle);
    assert [] + Unlinked(middle) == Unlinked(middle);
  }

  /** The file names of the first `k` images. */
  function FileNames(k: nat): (r: seq<string>)
    ensures |r| == k && forall i :: 0 <= i < k ==> r[i] == FileName(i)
  {
    if k == 0 then [] else FileNames(k - 1) + [FileName(k - 1)]
  }

  /** Steps that neither write an image nor delete a file. */
  predicate KeepsFiles(steps: seq<Step>)
  {
    forall p :: 0 <= p < |steps| ==> WrittenBy(steps[p]) == [] && UnlinkedBy(steps[p]) == []
  }

  lemma {:induction false} KeepsFilesNames(steps: seq<Step>)
    requires KeepsFiles(steps)
    ensures Written(steps) == [] && Unlinked(steps) == []
  {
    if steps != [] {
      var init := steps[..|steps| - 1];
      assert KeepsFiles(init) by {
        forall p | 0 <= p < |init|
          ensures WrittenBy(init[p]) == [] && UnlinkedBy(init[p]) == []
        {
          assert init[p] == steps[p];
        }
      }
      KeepsFilesNames(init);
    }
  }

  lemma WriteThenReport(prev: seq<Step>, name: string, dataUrl: string, progress: Progress)
    ensures Written(prev + [Fs(WriteImage(name, dataUrl)), Report(progress)]) == Written(prev) + [name]
    ensures Unlinked(prev + [Fs(WriteImage(name, dataUrl)), Report(progress)]) == Unlinked(prev)
  {
    var x := Fs(WriteImage(name, dataUrl));
    var all := prev + [x, Report(progress)];
    assert all[..|all| - 1] == prev + [x];
    assert (prev + [x])[..|prev|] == prev;
  }

  lemma {:induction false} WriteStepsFiles(images: seq<Image>, k: nat)
    requires k <= |images|
    ensures Written(WriteSteps(images, k)) == FileNames(k)
    ensures Unlinked(WriteSteps(images, k)) == []
  {
    if k > 0 {
      WriteStepsFiles(images, k - 1);
      var all := WriteSteps(images, k);
      var prev := WriteSteps(images, k - 1);
      var y := all[2 * k - 1];
      assert all == prev + [Fs(WriteImage(FileName(k - 1), images[k - 1].dataUrl)), Report(y.progress)];
      WriteThenReport(prev, FileName(k - 1), images[k - 1].dataUrl, y.progress);
    }
  }

  lemma {:induction false} CleanStepsFiles(k: nat)
    ensures Written(CleanSteps(k)) == []
    ensures Unlinked(CleanSteps(k)) == FileNames(k)
  {
    if k > 0 {
      CleanStepsFiles(k - 1);
      FilesAppend(CleanSteps(k - 1), [Fs(Unlink(FileName(k - 1)))]);
      FilesSingle(Fs(Unlink(FileName(k - 1))));
    }
  }

  lemma LoadBlockFiles(ratios: seq<real>)
    ensures Written(LoadBlock(ratios)) == [] && Unlinked(LoadBlock(ratios)) == []
  {
    var b := LoadBlock(ratios);
    forall p | 0 <= p < |b|
      ensures b[p].Report?
    {
      if p >= 1 {
        assert b[p] == LoadSteps(ratios)[p - 1];
      }
    }
    KeepsFilesNames(b);
  }

  lemma WriteBlockFiles(images: seq<Image>, content: string)
    ensures Written(WriteBlock(images, content)) == FileNames(|images|)
    ensures Unlinked(WriteBlock(images, content)) == []
  {
    var b := WriteBlock(images, content);
    WriteStepsFiles(images, |images|);
    FilesFramed(b, WriteSteps(images, |images|));
  }

  lemma TranscodeBlockFiles(command: seq<string>, times: seq<Option<real>>, total: nat)
    ensures Written(TranscodeBlock(command, times, total)) == []
    ensures Unlinked(TranscodeBlock(command, times, total)) == []
  {
    var b := TranscodeBlock(command, times, total);
    forall p | 0 <= p < |b|
      ensures WrittenBy(b[p]) == [] && UnlinkedBy(b[p]) == []
    {
      if p >= 1 {
        assert b[p] == TranscodeSteps(times, total)[p - 1];
      }
    }
    KeepsFilesNames(b);
  }

  lemma CleanBlockFiles(n: nat)
    ensures Written(CleanBlock(n)) == []
    ensures Unlinked(CleanBlock(n)) == FileNames(n) + [ConcatFile]
  {
    CleanStepsFiles(n);
    FilesFramed(CleanBlock(n), CleanSteps(n));
  }

  lemma ShortBlocksFiles()
    ensures Written(CommandBlock()) == [] && Unlinked(CommandBlock()) == []
    ensures Written(ReadBlock()) == [] && Unlinked(ReadBlock()) == []
  {
    KeepsFilesNames(CommandBlock());
    KeepsFilesNames(ReadBlock());
  }

  /** Blocks whose only image writes are `names`, in the second, and whose
      only deletions are `names` and the concat list, in the sixth. */
  lemma BlocksFiles(names: seq<string>, load: seq<Step>, write: seq<Step>, command: seq<Step>,
                    transcode: seq<Step>, read: seq<Step>, clean: seq<Step>)
    requires Written(load) == [] && Written(write) == names && Written(command) == []
    requires Written(transcode) == [] && Written(read) == [] && Written(clean) == []
    requires Unlinked(load) == [] && Unlinked(write) == [] && Unlinked(command) == []
    requires Unlinked(transcode) == [] && Unlinked(read) == [] && Unlinked(clean) == names + [ConcatFile]
    ensures Written(load + write + command) == names && Unlinked(load + write + command) == []
    ensures var all := load + write + command + transcode + read + clean;
      Written(all) == names && Unlinked(all) == names + [ConcatFile]
  {
    var prep := load + write + command;
    FilesAppend(load, write);
    assert Written(load + write) == names by { assert [] + names == names; }
    assert Unlinked(load + write) == [];
    FilesAppend(load + write, command);
    assert Written(prep) == names by { assert names + [] == names; }
    assert Unlinked(prep) == [];
    FilesAppend(prep, transcode);
    assert Written(prep + transcode) == names by { assert names + [] == names; }
    assert Unlinked(prep + transcode) == [];
    FilesAppend(prep + transcode, read);
    assert Written(prep + transcode + read) == names by { assert names + [] == names; }
    assert Unlinked(prep + transcode + read) == [];
    FilesAppend(prep + transcode + read, clean);
    assert Written(prep + transcode + read + clean) == names by { assert names + [] == names; }
    assert Unlinked(prep + transcode + read + clean) == names + [ConcatFile] by {
      assert [] + (names + [ConcatFile]) == names + [ConcatFile];
    }
  }

  /** The files `generate` leaves behind: when FFmpeg runs, every image file
      written (one per image, under `FileName`) is deleted, and then the
      concat list; when `buildCommand` fails, nothing is deleted. */
  lemma GenerateFiles(images: seq<Image>, config: Config, ratios: seq<real>, times: seq<Option<real>>)
    ensures var (trace, result) := GenerateSpec(images, config, ratios, times);
      && Written(trace) == FileNames(|images|)
      && (result.Ok? ==> Unlinked(trace) == Written(trace) + [ConcatFile])
      && (result.Err? ==> Unlinked(trace) == [])
  {
    var content := ConcatContent(images, config, |images|);
    var command := if BuildCommand(config).Ok? then BuildCommand(config).value else [];
    var total := TotalDuration(images, config);
    LoadBlockFiles(ratios);
    WriteBlockFiles(images, content);
    ShortBlocksFiles();
    TranscodeBlockFiles(command, times, total);
    CleanBlockFiles(|images|);
    BlocksFiles(FileNames(|images|), LoadBlock(ratios), WriteBlock(images, content), CommandBlock(),
                TranscodeBlock(command, times, total), ReadBlock(), CleanBlock(|images|));
  }

  /** The image files have distinct names, none of them the concat list. */
  lemma FileNamesDistinct(n: nat)
    ensures forall i, j :: 0 <= i < j < n ==> FileNames(n)[i] != FileNames(n)[j]
    ensures ConcatFile !in FileNames(n)
  {
    forall i, j | 0 <= i < j < n
      ensures FileNames(n)[i] != FileNames(n)[j]
    {
      FileNameInjective(i, j);
    }
    forall i | 0 <= i < n
      ensures FileNames(n)[i] != ConcatFile
    {
      FileNameInjective(i, i);
    }
  }
}
