# instarec in Dafny

instarec pulls media recommendations (songs, videos, apps, articles shown as
cards) out of Instagram reels. It downloads a reel, extracts its scene-change
frames, asks a Gemini vision model about each frame and prints a report
`{url, caption, media}`. This project models the logic around those foreign
calls and proves what that logic guarantees:

- `Analysis` (instarec/analyze.py) covers two operations.
  - `analyze_frame` is the response normaliser. It strips the reply and, when the reply opens with a markdown fence, drops every fence line. It then sorts the parsed JSON into four outcomes.
  - `analyze_frames` is the loop that keeps the per-frame dicts whose `media` is truthy in Python's sense.
- `FrameDedup` (scripts/extract_frames.py) is the greedy perceptual-hash deduplicator. It visits frames in sorted name order and keeps a frame iff its Hamming distance to every hash kept so far is greater than the threshold.
- `CardExtract` (scripts/extract_card.py) is the embedded-card detector.
  - Detected regions become corner boxes and are merged into one box.
  - The merged box is accepted only if it covers at least 3% of the frame and its aspect ratio lies in [0.6, 1.6].
  - An accepted box is cropped out, plus an annotated frame in debug mode.
- `CardVlm` (scripts/extract_card_vlm.py) is the debug script's `main`. It reads the image path and `--model` from `argv`, checks that the file exists and prints the analysis. Its `analyze_frame` handles the reply with the same code as instarec/analyze.py's and is modelled once, as `Analysis.AnalyzeFrame`. The script sends its own prompt (it lists "app" media where the package lists "book"), so its model call is a different `Backend` argument.
- `Pipeline` (main.py) assembles the stages in `_run_pipeline` and `main`:
  - the `--keep-files` layout under `data/<reel id>/`;
  - the empty-frames short cut;
  - the final report.

Helper modules:

- `Wrappers` defines `Option` and `Result`. A `Failure` stands for an exception escaping a call.
- `PyText` models `str.strip`, `startswith`, `split("\n")` and `"\n".join`.
- `Json` models the values `json.loads` yields and Python truthiness on them.

Foreign calls are parameters of function type:

| call | parameter |
|---|---|
| Gemini `generate_content`, including client creation and image reading | `Backend` |
| `json.loads` | `Parser` |
| yt-dlp `download_reel` | `Downloader` |
| `extract_unique_frames` (ffmpeg) | `Extractor` |
| `cv2.imread` | an `Option<Image>` argument |
| MSER with `boundingRect` | the list of region rectangles |
| `cv2.rectangle` | `Drawer` |
| `os.path.exists` | a predicate |
| imagehash `phash` | a 64-bit hash given with each frame |

### Behaviour of the code worth knowing

- **One exception ends the batch.** An exception raised while analysing one frame (backend error, missing key) propagates out of `analyze_frames` and out of the pipeline.
- **Model dicts pass through unchecked.**
  - A parsed dict with a `media` key is returned unchanged, whatever its `type` and `confidence` values are.
  - Media items repeated across frames all stay in the output (`Analysis.SelectMediaKeepsRepeats`).
- **The main pipeline does no hash deduplication.** instarec/frames.py only copies the scene frames; the deduplicator lives in scripts/extract_frames.py.
- **Threshold 0 drops exact repeats.** The test is strictly greater, so frames whose hash equals a kept one are dropped (`FrameDedup.ZeroThresholdDropsRepeats`).
- **A larger threshold can keep more frames.** `FrameDedup.NonMonotoneHashes` works through four 14-bit hashes, visited in the order a, b, c, d: a has no bit set, b bits 0-5, c bits 0-9, d bits 0-5 and 10-13. So b is 6 from a, c and d are each 10 from a and 4 from b, and c and d are 8 apart. Threshold 4 keeps a, b; threshold 7 keeps a, c, d.

## Model

| member | source | states |
|---|---|---|
| PyText.Strip | instarec/analyze.py:78 | `raw.strip()` is the slice of `raw` starting at the first non-whitespace character. Everything cut off on either side is whitespace, and neither end of the result is whitespace. Whitespace is exactly Python's `isspace` set. |
| PyText.StripAllSpace | instarec/analyze.py:75-78 | An all-whitespace reply strips to "". |
| PyText.StripKeepsPrefix | instarec/analyze.py:78-79 | Stripping keeps a prefix whose first and last characters are not whitespace, such as the fence. |
| PyText.Split | instarec/analyze.py:81 | `split("\n")` yields at least one piece, and no piece contains a newline. |
| PyText.JoinSplit | instarec/analyze.py:81-83 | Joining the pieces of a split with "\n" gives back the text. |
| PyText.SplitAfterPlainPrefix | instarec/analyze.py:81 | A newline-free prefix is glued to the first piece of the split. |
| PyText.Join | instarec/analyze.py:83 | `"\n".join(lines)`: no lines give "", and the text begins with the first line. `PyText.SplitJoin` proves it inverts the split. |
| PyText.SplitJoin | instarec/analyze.py:82-83 | Splitting a join of newline-free lines gives back the lines. |
| Analysis.DropFenceLines | instarec/analyze.py:82 | The comprehension keeps only non-fence lines, all of them, drawn from the input and no more than it has. |
| Analysis.IsFenceLine | instarec/analyze.py:82 | A fence line is one whose stripped form starts with three backticks. Properties: `Analysis.FirstLineIsFence`, `Analysis.DropFenceLines`. |
| Analysis.DropFenceLinesAppend | instarec/analyze.py:82 | The filter works line by line: filtering `a + b` is filtering `a`, then `b`. Order is kept. |
| Analysis.FirstLineIsFence | instarec/analyze.py:79-82 | A text starting with "```" has a fence as its first line, so the opening fence is always removed. |
| Analysis.NormaliseResponse | instarec/analyze.py:78-83 | The text handed to `json.loads`. Its contract is stated in `Analysis.NormaliseResponseLines`. |
| Analysis.NormaliseResponseLines | instarec/analyze.py:78-83 | An unfenced reply is only stripped. For a fenced reply, the parser receives exactly the non-fence lines of the stripped text, in order, joined by "\n", or "" if none remain. None of them is a fence. The same code appears in scripts/extract_card_vlm.py:80-84. |
| Analysis.ClassifyResponse | instarec/analyze.py:85-97 | Every outcome has a `media` key. A truthy `media` comes only from the parser's own dict, returned unchanged. |
| Analysis.ClassifyOutcomes | instarec/analyze.py:85-97 | The four outcomes. Unparseable text gives `{media: None, _raw: raw, _error: ...}`, with `_raw` the untrimmed reply. A non-dict gives `{media: None}`. A dict without `media` gives `{media: None}`. A dict with `media` is returned as is, even when `media` is null. The same code appears in scripts/extract_card_vlm.py:86-98. |
| Analysis.ParseErrorRecord | instarec/analyze.py:93-97 | The parse-error dict: `media` null, `_raw` the reply as received, `_error` the fixed message. Used by `Analysis.ClassifyOutcomes` and `Analysis.BlankReplyIsParseError`. |
| Analysis.AnalyzeFrame | instarec/analyze.py:56-97 | `analyze_frame` raises exactly when the model call raises. Otherwise its dict has a `media` key. |
| Analysis.BlankReplyIsParseError | instarec/analyze.py:75-97 | A missing or blank reply is treated as "" and gives the parse-error dict, keeping the reply as received. |
| Analysis.OrNoMedia | instarec/analyze.py:117 | `analyze_frame(...) or {"media": None}`: the result is never empty, a non-empty dict is kept as it is, and the default carries no media. |
| Analysis.HasMedia | instarec/analyze.py:118 | `result.get("media")` is truthy. Properties: `Analysis.OrNoMediaKept`, `Analysis.SelectMediaSuccess`. |
| Analysis.OrNoMediaKept | instarec/analyze.py:117-118 | The `or {"media": None}` default never carries media, so a kept result is the frame's own dict. |
| Analysis.SelectMediaStep | instarec/analyze.py:114-119 | One loop step: a raise stops the batch, otherwise the frame's dict is appended iff its `media` is truthy. |
| Analysis.AnalyzeFrames | instarec/analyze.py:100-121 | The loop returns exactly the specified selection (`SelectMedia`) of the frames. |
| Analysis.SelectMedia | instarec/analyze.py:112-121 | The specification of `analyze_frames`. Its properties are stated in `Analysis.SelectMediaAppend`, `Analysis.SelectMediaFailure`, `Analysis.SelectMediaSuccess` and `Analysis.SelectMediaKeepsRepeats`. |
| Analysis.SelectMediaAppend | instarec/analyze.py:112-121 | The results for `a + b` are those for `a` followed by those for `b`. No merging happens across frames, and order is preserved. |
| Analysis.SelectMediaFailure | instarec/analyze.py:114-117 | The batch raises iff some frame raises. It raises the first such frame's exception. |
| Analysis.SelectMediaSuccess | instarec/analyze.py:112-121 | Results number at most one per frame, all have truthy `media`, and a dict is in the output iff some frame produced it with truthy `media`. |
| Analysis.SelectMediaKeepsRepeats | instarec/analyze.py:112-121 | No deduplication: a media dict occurs as often as the number of frames that produced it. |
| FrameDedup.Hamming | scripts/extract_frames.py:39 | `h - prev` counts differing bits. It is at most the hash length, and zero iff the hashes are equal. |
| FrameDedup.HammingSymmetric | scripts/extract_frames.py:39 | The distance is symmetric. |
| FrameDedup.NameLeqTotal | scripts/extract_frames.py:34 | Python's string order is total. |
| FrameDedup.NameLeqTransitive | scripts/extract_frames.py:34 | Python's string order is transitive. |
| FrameDedup.InsertByName | scripts/extract_frames.py:34 | Insertion into a name-sorted list keeps it sorted and adds exactly the new frame (multiset). |
| FrameDedup.SortByName | scripts/extract_frames.py:34 | `sorted(os.listdir(...))` is sorted by name and a permutation of the listing. |
| FrameDedup.Greedy | scripts/extract_frames.py:34-42 | The kept frames are an order-preserving subsequence of the visited frames. |
| FrameDedup.GreedyStep | scripts/extract_frames.py:39-41 | A frame is kept iff it is strictly farther than the threshold from every frame kept before it. At distance exactly the threshold it is dropped. |
| FrameDedup.DedupeFrames | scripts/extract_frames.py:28-44 | The copied frames are the greedy selection over the name-sorted listing. The returned count equals their number and is at most the number of files. |
| FrameDedup.KeepFarFrames | scripts/extract_frames.py:31-42 | The loop's copies are the greedy selection, with `kept == len(hashes)`. |
| FrameDedup.VisitFrame | scripts/extract_frames.py:35-42 | One iteration keeps `hashes` equal to the kept frames' hashes and `kept` equal to their number. |
| FrameDedup.AllFar | scripts/extract_frames.py:39 | `all(...)` is true iff every accepted hash is farther than the threshold. It stops at the first hash that is too close. |
| FrameDedup.SubsequenceMembers | scripts/extract_frames.py:34-42 | Every kept frame is one of the input frames. |
| FrameDedup.GreedyPairwiseFar | scripts/extract_frames.py:39-41 | Loop invariant: any two kept hashes are farther apart than the threshold. |
| FrameDedup.GreedyPrefix | scripts/extract_frames.py:34-42 | Later frames never undo a decision: the frames kept among the first n begin the final selection. |
| FrameDedup.FirstFrameKept | scripts/extract_frames.py:31-39 | The first frame examined is always kept, because `all` over no hashes is true. |
| FrameDedup.FrameDecision | scripts/extract_frames.py:39-41 | Each frame is either the next kept frame, or dropped while within the threshold of a frame kept before it. |
| FrameDedup.EveryFrameCovered | scripts/extract_frames.py:39-41 | For a threshold of 0 or more, every input frame is within the threshold of some kept frame. |
| FrameDedup.NegativeThresholdKeepsAll | scripts/extract_frames.py:39 | A negative threshold keeps every frame. |
| FrameDedup.ZeroThresholdDropsRepeats | scripts/extract_frames.py:39-41 | At threshold 0 the kept hashes are pairwise different, and every frame's hash is a kept hash. Only exact repeats are dropped. |
| FrameDedup.GreedySnoc | scripts/extract_frames.py:35-42 | Visiting one more frame keeps it iff it is farther than the threshold from every frame kept so far. |
| FrameDedup.KeepNext | scripts/extract_frames.py:39-41 | A frame farther than the threshold from every kept frame is appended to the kept frames. |
| FrameDedup.DropNext | scripts/extract_frames.py:39 | A frame within the threshold of some kept frame leaves the kept frames unchanged. |
| FrameDedup.OnlyFrameKept | scripts/extract_frames.py:39 | A lone frame is always kept. |
| FrameDedup.KeptAtFour | scripts/extract_frames.py:39-41 | With distances b-a 6, c-b 4 and d-b 4, threshold 4 keeps a, b out of a, b, c, d. |
| FrameDedup.KeptAtSeven | scripts/extract_frames.py:39-41 | With distances b-a 6, c-a 10, d-a 10 and d-c 8, threshold 7 keeps a, c, d. |
| FrameDedup.ThresholdNotMonotone | scripts/extract_frames.py:34-42 | The number of kept frames is not monotone in the threshold: the four frames above keep 2 at threshold 4 and 3 at threshold 7. |
| FrameDedup.HammingAppend | scripts/extract_frames.py:39 | Distances add up over blocks of equal length. |
| FrameDedup.HammingBits | scripts/extract_frames.py:39 | A run of n set bits is n from a run of n clear bits, and 0 from an equal run. |
| FrameDedup.NonMonotoneHashes | scripts/extract_frames.py:34-42 | Concrete 14-bit hashes with those distances exist: 0, bits 0-5, bits 0-9, bits 0-5 and 10-13. |
| CardExtract.CornerBox | scripts/extract_card.py:35-36 | A region `(x, y, bw, bh)` becomes `[x, y, x+bw, y+bh]`, the same rectangle given by its corners. |
| CardExtract.CornerBoxes | scripts/extract_card.py:33-36 | One corner box per region, in region order. |
| CardExtract.RegionBoxes | scripts/extract_card.py:33-36 | The appending loop builds exactly the corner boxes of the regions. |
| CardExtract.Merge | scripts/extract_card.py:41-44 | The min/max box contains every region box, and each of its edges is an edge of some region box. |
| CardExtract.MergeSmallest | scripts/extract_card.py:41-44 | The merged box is the smallest box containing all region boxes. |
| CardExtract.MergeInside | scripts/extract_card.py:41-47 | For regions inside the frame, the merged box is non-empty and inside the frame, so `bh > 0`. |
| CardExtract.Crop | scripts/extract_card.py:58 | `img[y1:y2, x1:x2]` is bh by bw, and pixel (r, c) is the frame's pixel (y1+r, x1+c). |
| CardExtract.AreaRatio | scripts/extract_card.py:46-49 | `bw*bh / frame_area` as an exact ratio. Properties: `CardExtract.AreaCheck`, `CardExtract.Decide`. |
| CardExtract.Aspect | scripts/extract_card.py:50 | `bw / bh` as an exact ratio. Properties: `CardExtract.AspectCheck`, `CardExtract.Decide`. |
| CardExtract.Decide | scripts/extract_card.py:46-65 | The ratio returned is always `bw*bh/(h*w)`. A card exists iff the area ratio is at least 0.03 and the aspect lies within [0.6, 1.6]. The card is the crop. A triple is returned iff debug is on and the card was accepted, and it carries the annotated frame. |
| CardExtract.ExtractCard | scripts/extract_card.py:13-65 | An unloadable image raises "Could not load image". No regions gives `(None, 0.0)`. Otherwise the result is the decision on the merged box. |
| CardExtract.AreaCheck | scripts/extract_card.py:49-53 | The area test in integers: `100*bw*bh >= 3*h*w`. |
| CardExtract.AspectCheck | scripts/extract_card.py:50-56 | The aspect test in integers: `3*bh <= 5*bw <= 8*bh`. |
| CardExtract.AcceptanceRule | scripts/extract_card.py:49-56 | A card is accepted iff `100*bw*bh >= 3*h*w` and `3*bh <= 5*bw <= 8*bh`. No division is involved. |
| CardExtract.BoundsIncluded | scripts/extract_card.py:52-56 | Both bounds are inclusive: a box at exactly 3%, and boxes at aspect exactly 0.6 and 1.6, are accepted. Boxes just outside are not. |
| CardExtract.DebugOnlyAddsImage | scripts/extract_card.py:52-65 | Debug changes only the accepted path, which returns a triple. The card and ratio are the same, and a rejection returns the same pair. |
| CardExtract.AcceptedCardSpansRegions | scripts/extract_card.py:41-58 | An accepted card is the bh-row crop of a box spanning every detected region. |
| CardVlm.FirstIndex | scripts/extract_card_vlm.py:109-110 | `argv.index(x)` after `x in argv`: the position of the first `x`, or none. |
| CardVlm.ModelArg | scripts/extract_card_vlm.py:107-112 | Without `--model` the default model is used. |
| CardVlm.ModelAfterFirstFlag | scripts/extract_card_vlm.py:109-112 | The model is the word after the first `--model`. Later flags are ignored. |
| CardVlm.TrailingFlagKeepsDefault | scripts/extract_card_vlm.py:111-112 | A single `--model` at the end keeps the default model. |
| CardVlm.RunScript | scripts/extract_card_vlm.py:101-119 | Fewer than two arguments exit 1 with the usage text. A missing file exits 1 with "File not found". The script raises iff the model call raises, and a printed result has `media`. |
| CardVlm.PathIsFirstArgument | scripts/extract_card_vlm.py:106-112 | The path is `argv[1]` even when it reads `--model`. The flag at that position then selects `argv[2]` as the model. |
| CardVlm.MissingFileSkipsAnalysis | scripts/extract_card_vlm.py:114-118 | A missing file ends the run before any analysis: the outcome does not depend on the model backend. |
| CardVlm.PrintedIsAnalysis | scripts/extract_card_vlm.py:118-119 | The printed record is `analyze_frame(argv[1], model)`. |
| Pipeline.PathJoin | main.py:82-93 | `os.path.join` on POSIX. An absolute second part replaces the first. An empty first part, or one ending in "/", is followed directly by the second part. Otherwise exactly one "/" separates them. |
| Pipeline.RunPipeline | main.py:65-120 | `_run_pipeline` with its in-place update of `video_path` returns exactly the specified run (result and call trace). |
| Pipeline.PipelineRun | main.py:65-120 | The specification of `_run_pipeline`: result and call trace. Its properties are stated in `Pipeline.ReportCarriesUrlAndCaption`, `Pipeline.StagesInOrder`, `Pipeline.MissingIdStopsEarly`, `Pipeline.KeptLayout` and `Pipeline.TemporaryLayout`. |
| Pipeline.RunCommand | main.py:54-59 | Both branches run the same pipeline in the temporary directory. `--keep-files` only sets the flag. |
| Pipeline.ReportCarriesUrlAndCaption | main.py:103-120 | A report carries `url = args.url` and the downloaded caption. |
| Pipeline.StagesInOrder | main.py:91-120 | Frames are extracted from the video in its final place into the working directory's `frames`. An empty frame list returns `media: []` without calling the analysis. Otherwise `media` is exactly `analyze_frames(frame_paths, model=args.model)`, and it raises iff that raises. |
| Pipeline.MissingIdStopsEarly | main.py:78-81 | With `--keep-files`, an empty reel id raises "Could not determine reel ID from yt-dlp metadata". This happens before any move or frame extraction. |
| Pipeline.KeptLayout | main.py:78-98 | With `--keep-files` and a reel id that is non-empty and holds no "/", the calls are in order: create `data/<id>`, move the video to `data/<id>/video.mp4`, extract into `data/<id>/frames`. |
| Pipeline.TemporaryLayout | main.py:88-98 | Without the flag nothing is moved. Frames go from the downloaded video to `<tmp_dir>/frames`. |

## Left out

- The Gemini client, the API key check and reading the image file (instarec/analyze.py:42-47, 66-73; scripts/extract_card_vlm.py:44-55, 76) are credential and file I/O. They form part of the `Backend` parameter, whose failure is an exception.
- The JSON decoder is a parameter. Dict key order and the `json.dumps`/`json.dump` output text are not modelled; the printed value is the record itself.
- yt-dlp (instarec/download.py) is the `Downloader` parameter; it involves network I/O.
- ffmpeg scene extraction and the copying in instarec/frames.py make up the `Extractor` parameter; they involve subprocess and file I/O. The same goes for `extract_scene_frames` in scripts/extract_frames.py.
- imagehash `phash` (a DCT in floating point) is not modelled. Each frame arrives with its 64-bit hash, and `DedupeFrames` requires hashes of that one length, as `phash` always produces.
- Image decoding, grey conversion, MSER and `boundingRect` are OpenCV calls. The loaded image and the region rectangles are inputs. Rectangles are required to have positive size and to lie inside the frame, as bounding rectangles of detected pixels do. The MSER area limits (scripts/extract_card.py:24-27) only configure the detector.
- The annotated debug frame is the `Drawer` parameter applied to the frame and the box. Colour and thickness of `cv2.rectangle` are not modelled.
- CardExtract.AreaRatio and CardExtract.Aspect are computed in exact real arithmetic, not IEEE doubles. For any real image size, a ratio of integers differs from 0.03, 0.6 or 1.6 by far more than one rounding step. Every comparison therefore comes out as with floats.
- The `main` functions of scripts/extract_frames.py and scripts/extract_card.py are left out: argument parsing, printing and `imwrite`.
- Logging to stderr, the tqdm progress bar, argparse, tempfile creation and cleanup, `os.makedirs` and `shutil.move` are left out. The directory creation and the move appear in the call trace and are assumed to succeed; their own failures are not modelled.
- `download_reel` always returns strings, so a missing caption or id arrives as "". The model takes the fields as strings.
- Integers are unbounded. Image sizes and box coordinates stay far below NumPy's 64-bit range.
