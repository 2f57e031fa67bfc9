/**
  The command-line pipeline of main.py: download a reel into a temporary
  directory, optionally move the video to `data/<reel id>/`, extract its
  scene frames, analyse them with the vision model and report
  `{url, caption, media}`. Downloading (yt-dlp) and frame extraction
  (ffmpeg) are parameters; the analysis is `Analysis.AnalyzeFrames`. The
  directory creation and the file move are recorded, in order, in a trace of
  the calls the pipeline makes.
 */
module Pipeline {
  import opened Wrappers
  import opened Analysis

  const MissingIdMessage := "Could not determine reel ID from yt-dlp metadata"
  const DataDir := "data"

  /** The parsed command line. */
  datatype Args = Args(url: string, cookies: string, model: string, sceneThreshold: real, keepFiles: bool)

  /** What `download_reel` returns: `video_path`, `caption` and `id`. */
  datatype Download = Download(videoPath: string, caption: string, id: string)

  /** The JSON object the pipeline prints. */
  datatype Report = Report(url: string, caption: string, media: seq<Record>)

  /** `download_reel(url, output_dir, cookies_file)`; a failure is an
      exception it raises. */
  type Downloader = (string, string, string) -> Result<Download, string>

  /** `extract_unique_frames(video_path, output_dir, scene_threshold)`. */
  type Extractor = (string, string, real) -> Result<seq<string>, string>

  /** The external stages the pipeline is assembled from. */
  datatype Stages = Stages(download: Downloader, extract: Extractor, backend: Backend, parse: Parser)

  /** The calls the pipeline makes, in the order it makes them. */
  datatype Effect =
    | DownloadCall(url: string, outputDir: string, cookies: string)
    | MakeDirs(dir: string)
    | MoveFile(source: string, target: string)
    | ExtractCall(videoPath: string, outputDir: string, sceneThreshold: real)
    | AnalyzeCall(paths: seq<string>, model: string)

  /** How a run ends (the report, or the exception that escaped) and the
      calls it made on the way. */
  datatype Execution = Execution(result: Result<Report, string>, trace: seq<Effect>)

  /** `os.path.join(a, b)` on POSIX: an absolute `b` replaces `a`, and a
      separator is inserted only when `a` is non-empty and does not already
      end with one. */
  function PathJoin(a: string, b: string): (p: string)
    ensures b != [] && b[0] == '/' ==> p == b
    ensures (b == [] || b[0] != '/') && a != [] && a[|a| - 1] != '/' ==> p == a + "/" + b
    ensures (b == [] || b[0] != '/') && (a == [] || a[|a| - 1] == '/') ==> p == a + b
  {
    if |b| > 0 && b[0] == '/' then b
    else if a == [] || a[|a| - 1] == '/' then a + b
    else a + "/" + b
  }

  /** A reel id that names one directory below `data`. */
  predicate PlainName(id: string) {
    id != [] && forall k :: 0 <= k < |id| ==> id[k] != '/'
  }

  /** The run of `_run_pipeline(args, tmp_dir, keep_files)`, step by step. */
  function PipelineRun(args: Args, tmpDir: string, keepFiles: bool, st: Stages): Execution {
    var t0 := [DownloadCall(args.url, tmpDir, args.cookies)];
    match st.download(args.url, tmpDir, args.cookies)
    case Failure(e) => Execution(Failure(e), t0)
    case Success(dl) =>
      if keepFiles && dl.id == "" then Execution(Failure(MissingIdMessage), t0)
      else
        var workDir := if keepFiles then PathJoin(DataDir, dl.id) else tmpDir;
        var video := if keepFiles then PathJoin(workDir, "video.mp4") else dl.videoPath;
        var t1 := if keepFiles then t0 + [MakeDirs(workDir), MoveFile(dl.videoPath, video)] else t0;
        var framesDir := PathJoin(workDir, "frames");
        var t2 := t1 + [ExtractCall(video, framesDir, args.sceneThreshold)];
        match st.extract(video, framesDir, args.sceneThreshold)
        case Failure(e) => Execution(Failure(e), t2)
        case Success(paths) =>
          if paths == [] then Execution(Success(Report(args.url, dl.caption, [])), t2)
          else
            var t3 := t2 + [AnalyzeCall(paths, args.model)];
            match SelectMedia(FrameAnalyzer(st.backend, st.parse, args.model), paths)
            case Failure(e) => Execution(Failure(e), t3)
            case Success(media) => Execution(Success(Report(args.url, dl.caption, media)), t3)
  }

  /** `_run_pipeline`: the stages in sequence, with the download record
      updated in place when the video is kept. */
  method RunPipeline(args: Args, tmpDir: string, keepFiles: bool, st: Stages)
    returns (result: Result<Report, string>, trace: seq<Effect>)
    ensures Execution(result, trace) == PipelineRun(args, tmpDir, keepFiles, st)
  {
    trace := [DownloadCall(args.url, tmpDir, args.cookies)];
    var downloaded := st.download(args.url, tmpDir, args.cookies);
    if downloaded.Failure? {
      return Failure(downloaded.error), trace;
    }
    var dl := downloaded.value;
    var workDir: string;
    if keepFiles {
      var reelId := dl.id;
      if reelId == "" {
        return Failure(MissingIdMessage), trace;
      }
      workDir := PathJoin(DataDir, reelId);
      var keptVideo := PathJoin(workDir, "video.mp4");
      trace := trace + [MakeDirs(workDir), MoveFile(dl.videoPath, keptVideo)];
      dl := dl.(videoPath := keptVideo);
    } else {
      workDir := tmpDir;
    }
    var framesDir := PathJoin(workDir, "frames");
    trace := trace + [ExtractCall(dl.videoPath, framesDir, args.sceneThreshold)];
    var extracted := st.extract(dl.videoPath, framesDir, args.sceneThreshold);
    if extracted.Failure? {
      return Failure(extracted.error), trace;
    }
    var framePaths := extracted.value;
    if framePaths == [] {
      return Success(Report(args.url, dl.caption, [])), trace;
    }
    trace := trace + [AnalyzeCall(framePaths, args.model)];
    var media := AnalyzeFrames(st.backend, st.parse, framePaths, args.model);
    if media.Failure? {
      return Failure(media.error), trace;
    }
    return Success(Report(args.url, dl.caption, media.value)), trace;
  }

  /** `main`: both branches run the pipeline in a fresh temporary directory
      (`tmpDir`), and `--keep-files` only sets the flag passed to it. */
  method RunCommand(args: Args, tmpDir: string, st: Stages)
    returns (result: Result<Report, string>, trace: seq<Effect>)
    ensures Execution(result, trace) == PipelineRun(args, tmpDir, args.keepFiles, st)
  {
    if args.keepFiles {
      result, trace := RunPipeline(args, tmpDir, true, st);
    } else {
      result, trace := RunPipeline(args, tmpDir, false, st);
    }
  }

  // ----- what a run guarantees -----

  /** A report always carries the command's URL and the downloaded caption. */
  lemma ReportCarriesUrlAndCaption(args: Args, tmpDir: string, keepFiles: bool, st: Stages)
    requires PipelineRun(args, tmpDir, keepFiles, st).result.Success?
    ensures var dl := st.download(args.url, tmpDir, args.cookies);
      var report := PipelineRun(args, tmpDir, keepFiles, st).result.value;
      dl.Success? && report.url == args.url && report.caption == dl.value.caption
  {
  }

  /** Where the frames go and which video they come from: with the flag,
      `data/<id>/frames` from the moved video; without it, `frames` inside
      the temporary directory from the downloaded video. */
  function FramesSource(tmpDir: string, keepFiles: bool, dl: Download): (string, string) {
    if keepFiles then (PathJoin(PathJoin(DataDir, dl.id), "video.mp4"), PathJoin(PathJoin(DataDir, dl.id), "frames"))
    else (dl.videoPath, PathJoin(tmpDir, "frames"))
  }

  /** The pipeline reaches frame extraction exactly when the download
      succeeds and, with the flag, the reel id is not empty. */
  predicate ReachesExtraction(args: Args, tmpDir: string, keepFiles: bool, st: Stages) {
    var dl := st.download(args.url, tmpDir, args.cookies);
    dl.Success? && !(keepFiles && dl.value.id == "")
  }

  /** Frames are extracted once, from the video in its final place into the
      frames directory of the working directory, and an empty frame list ends
      the run with `media: []` without calling the analysis; otherwise the
      media list is exactly what `analyze_frames` returns for those frames
      and the model given on the command line. */
  lemma StagesInOrder(args: Args, tmpDir: string, keepFiles: bool, st: Stages)
    requires ReachesExtraction(args, tmpDir, keepFiles, st)
    ensures var dl := st.download(args.url, tmpDir, args.cookies).value;
      var (video, framesDir) := FramesSource(tmpDir, keepFiles, dl);
      var run := PipelineRun(args, tmpDir, keepFiles, st);
      var frames := st.extract(video, framesDir, args.sceneThreshold);
      ExtractCall(video, framesDir, args.sceneThreshold) in run.trace &&
      (frames.Failure? ==> run.result == Failure(frames.error)) &&
      (frames.Success? && frames.value == [] ==>
        run.result == Success(Report(args.url, dl.caption, [])) &&
        forall e :: e in run.trace ==> !e.AnalyzeCall?) &&
      (frames.Success? && frames.value != [] ==>
        var analysed := SelectMedia(FrameAnalyzer(st.backend, st.parse, args.model), frames.value);
        run.trace[|run.trace| - 1] == AnalyzeCall(frames.value, args.model) &&
        (run.result.Success? <==> analysed.Success?) &&
        (run.result.Success? ==> run.result.value.media == analysed.value))
  {
    var dl := st.download(args.url, tmpDir, args.cookies).value;
    if keepFiles {
      var dir := PathJoin(DataDir, dl.id);
      assert FramesSource(tmpDir, keepFiles, dl) == (PathJoin(dir, "video.mp4"), PathJoin(dir, "frames"));
    } else {
      assert FramesSource(tmpDir, keepFiles, dl) == (dl.videoPath, PathJoin(tmpDir, "frames"));
    }
  }

  /** With `--keep-files` an empty reel id raises before the video is moved
      or any frame is extracted. */
  lemma MissingIdStopsEarly(args: Args, tmpDir: string, st: Stages)
    requires st.download(args.url, tmpDir, args.cookies).Success?
    requires st.download(args.url, tmpDir, args.cookies).value.id == ""
    ensures var run := PipelineRun(args, tmpDir, true, st);
      run.result == Failure(MissingIdMessage) &&
      run.trace == [DownloadCall(args.url, tmpDir, args.cookies)]
  {
  }

  /** With `--keep-files` and a plain reel id, `data/<id>` is created, the
      video is moved to `data/<id>/video.mp4`, and frames are extracted from
      there into `data/<id>/frames`. */
  lemma KeptLayout(args: Args, tmpDir: string, st: Stages)
    requires st.download(args.url, tmpDir, args.cookies).Success?
    requires PlainName(st.download(args.url, tmpDir, args.cookies).value.id)
    ensures var dl := st.download(args.url, tmpDir, args.cookies).value;
      var dir := DataDir + "/" + dl.id;
      PipelineRun(args, tmpDir, true, st).trace[..4] ==
        [DownloadCall(args.url, tmpDir, args.cookies), MakeDirs(dir),
         MoveFile(dl.videoPath, dir + "/video.mp4"),
         ExtractCall(dir + "/video.mp4", dir + "/frames", args.sceneThreshold)]
  {
    var dl := st.download(args.url, tmpDir, args.cookies).value;
    var dir := DataDir + "/" + dl.id;
    assert PathJoin(DataDir, dl.id) == dir;
    assert dir[|dir| - 1] == dl.id[|dl.id| - 1];
    assert PathJoin(dir, "video.mp4") == dir + "/video.mp4";
    assert PathJoin(dir, "frames") == dir + "/frames";
  }

  /** Without the flag nothing is moved: frames are extracted from the
      downloaded video into `<tmp_dir>/frames`. */
  lemma TemporaryLayout(args: Args, tmpDir: string, st: Stages)
    requires st.download(args.url, tmpDir, args.cookies).Success?
    requires tmpDir != [] && tmpDir[|tmpDir| - 1] != '/'
    ensures var dl := st.download(args.url, tmpDir, args.cookies).value;
      PipelineRun(args, tmpDir, false, st).trace[..2] ==
        [DownloadCall(args.url, tmpDir, args.cookies),
         ExtractCall(dl.videoPath, tmpDir + "/frames", args.sceneThreshold)]
  {
    assert PathJoin(tmpDir, "frames") == tmpDir + "/frames";
  }
}
