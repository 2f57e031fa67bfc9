/**
  The vision-model stage (instarec/analyze.py): turning the model's raw reply
  for one frame into a result dict, and keeping the per-frame results whose
  `media` value is truthy. The Gemini call and `json.loads` are parameters.
 */
module Analysis {
  import opened Wrappers
  import opened PyText
  import opened Json

  const DefaultModel := "gemini-2.5-flash-lite"
  const Fence := "```"
  const ParseErrorMessage := "Failed to parse VLM response as JSON"

  /** A Python dict with string keys (the order of keys is not modelled). */
  type Record = map<string, Json>

  /** `json.loads`: `None` for text it rejects with an error. */
  type Parser = string -> Option<Json>

  /** The model call for an image path and a model name: the reply's text
      (`None` when the reply has no text), or the message of the exception
      it raises (missing API key, unreadable image, API error). */
  type Backend = (string, string) -> Result<Option<string>, string>

  /** `{"media": None}`. */
  const NoMedia: Record := map["media" := JNull]

  /** The dict returned when the reply does not parse; it keeps the reply
      exactly as received, before any trimming. */
  function ParseErrorRecord(raw: string): Record {
    map["media" := JNull, "_raw" := JString(raw), "_error" := JString(ParseErrorMessage)]
  }

  /** A markdown fence line: one whose stripped form starts with three backticks. */
  predicate IsFenceLine(line: string) {
    StartsWith(Strip(line), Fence)
  }

  /** The list comprehension that keeps the lines that are not fence lines. */
  function DropFenceLines(lines: seq<string>): (kept: seq<string>)
    ensures |kept| <= |lines|
    ensures forall k :: 0 <= k < |kept| ==> kept[k] in lines && !IsFenceLine(kept[k])
    ensures forall k :: 0 <= k < |lines| && !IsFenceLine(lines[k]) ==> lines[k] in kept
  {
    if lines == [] then []
    else (if IsFenceLine(lines[0]) then [] else [lines[0]]) + DropFenceLines(lines[1..])
  }

  /** Dropping fence lines works line by line: it keeps the surviving lines
      in their original order and never looks across lines. */
  lemma {:induction false} DropFenceLinesAppend(a: seq<string>, b: seq<string>)
    ensures DropFenceLines(a + b) == DropFenceLines(a) + DropFenceLines(b)
  {
    if a != [] {
      assert (a + b)[0] == a[0];
      assert (a + b)[1..] == a[1..] + b;
      DropFenceLinesAppend(a[1..], b);
    } else {
      assert a + b == b;
    }
  }

  /** The text handed to the JSON parser: the trimmed reply, and when it
      starts with a fence, its lines without the fence lines, rejoined. */
  function NormaliseResponse(raw: string): string {
    var text := Strip(raw);
    if StartsWith(text, Fence) then Join(DropFenceLines(Split(text))) else text
  }

  /** A text starting with three backticks has a fence line as its first line. */
  lemma FirstLineIsFence(text: string)
    requires StartsWith(text, Fence)
    ensures IsFenceLine(Split(text)[0])
  {
    var rest := text[|Fence|..];
    assert text == Fence + rest;
    SplitAfterPlainPrefix(Fence, rest);
    assert StartsWith(Fence + Split(rest)[0], Fence);
    StripKeepsPrefix(Split(text)[0], Fence);
  }

  /** What the normaliser hands to the parser. An unfenced reply is only
      trimmed. A fenced one loses its opening fence line and every other
      fence line; the lines that remain are exactly the non-fence lines of the
      trimmed reply, in their original order, and none of them is a fence. */
  lemma NormaliseResponseLines(raw: string)
    ensures !StartsWith(Strip(raw), Fence) ==> NormaliseResponse(raw) == Strip(raw)
    ensures StartsWith(Strip(raw), Fence) ==> IsFenceLine(Split(Strip(raw))[0])
    ensures var kept := DropFenceLines(Split(Strip(raw)));
      StartsWith(Strip(raw), Fence) && kept != [] ==> Split(NormaliseResponse(raw)) == kept
    ensures var kept := DropFenceLines(Split(Strip(raw)));
      StartsWith(Strip(raw), Fence) && kept == [] ==> NormaliseResponse(raw) == ""
    ensures StartsWith(Strip(raw), Fence) ==>
      forall k :: 0 <= k < |Split(NormaliseResponse(raw))| ==> !IsFenceLine(Split(NormaliseResponse(raw))[k])
  {
    var text := Strip(raw);
    if StartsWith(text, Fence) {
      FirstLineIsFence(text);
      var lines := Split(text);
      var kept := DropFenceLines(lines);
      if kept != [] {
        forall k | 0 <= k < |kept| ensures '\n' !in kept[k] {
          var j :| 0 <= j < |lines| && lines[j] == kept[k];
        }
        SplitJoin(kept);
      } else {
        assert Split("") == [""];
        assert !IsFenceLine("");
      }
    }
  }

  /** The classification of `analyze_frame`: a reply that does not parse
      gives the parse-error dict; a parsed value that is not a dict, or a
      dict without a `media` key, gives `{"media": None}`; a dict with a
      `media` key is returned as it is. Every outcome has a `media` key, and
      a truthy `media` can only come from the model's own dict. */
  function ClassifyResponse(parse: Parser, raw: string): (r: Record)
    ensures "media" in r
    ensures Truthy(r["media"]) ==> parse(NormaliseResponse(raw)) == Some(JObject(r))
  {
    match parse(NormaliseResponse(raw))
    case None => ParseErrorRecord(raw)
    case Some(JObject(fields)) => if "media" in fields then fields else NoMedia
    case Some(_) => NoMedia
  }

  /** The four outcomes of the classification, each in terms of what the
      parser made of the normalised reply. */
  lemma ClassifyOutcomes(parse: Parser, raw: string)
    ensures parse(NormaliseResponse(raw)) == None ==>
      ClassifyResponse(parse, raw) == ParseErrorRecord(raw) &&
      ClassifyResponse(parse, raw)["_raw"] == JString(raw)
    ensures parse(NormaliseResponse(raw)).Some? && !parse(NormaliseResponse(raw)).value.JObject? ==>
      ClassifyResponse(parse, raw) == NoMedia
    ensures forall fields :: parse(NormaliseResponse(raw)) == Some(JObject(fields)) ==>
      ClassifyResponse(parse, raw) == (if "media" in fields then fields else NoMedia)
  {
  }

  /** `analyze_frame`: ask the model about one frame and classify its reply;
      a reply without text counts as the empty text. An exception from the
      call propagates. */
  function AnalyzeFrame(backend: Backend, parse: Parser, path: string, model: string): (r: Result<Record, string>)
    ensures r.Failure? <==> backend(path, model).Failure?
    ensures r.Success? ==> "media" in r.value
  {
    match backend(path, model)
    case Failure(e) => Failure(e)
    case Success(text) => Success(ClassifyResponse(parse, text.GetOr("")))
  }

  /** A reply that is missing, empty or only whitespace cannot parse (the
      JSON parser rejects the empty text), so the frame's dict is the
      parse-error dict, keeping the reply as received in `_raw`. */
  lemma BlankReplyIsParseError(backend: Backend, parse: Parser, path: string, model: string)
    requires parse("") == None
    requires backend(path, model) == Success(None) ||
             (backend(path, model).Success? && backend(path, model).value.Some? &&
              AllSpace(backend(path, model).value.value))
    ensures AnalyzeFrame(backend, parse, path, model) ==
      Success(ParseErrorRecord(backend(path, model).value.GetOr("")))
  {
    var raw := backend(path, model).value.GetOr("");
    StripAllSpace(raw);
    assert !StartsWith("", Fence);
  }

  /** `analyze_frame` with the call and the parser fixed: the outcome for
      each frame path. */
  type Analyzer = string -> Result<Record, string>

  function FrameAnalyzer(backend: Backend, parse: Parser, model: string): Analyzer {
    path => AnalyzeFrame(backend, parse, path, model)
  }

  /** `analyze_frame(...) or {"media": None}`: an empty dict is replaced. */
  function OrNoMedia(r: Record): (o: Record)
    ensures |o| > 0
    ensures |r| > 0 ==> o == r
    ensures |r| == 0 ==> !HasMedia(o)
  {
    if |r| == 0 then NoMedia else r
  }

  /** `result.get("media")` is truthy. */
  predicate HasMedia(r: Record) {
    "media" in r && Truthy(r["media"])
  }

  /** The `or` default never carries media, so a kept result is the frame's
      own dict. */
  lemma OrNoMediaKept(r: Record)
    ensures HasMedia(OrNoMedia(r)) <==> HasMedia(r)
    ensures HasMedia(r) ==> OrNoMedia(r) == r
  {
  }

  /** The results so far followed by those still to come; an exception
      anywhere stops the whole batch. */
  function Prepend(done: seq<Record>, rest: Result<seq<Record>, string>): Result<seq<Record>, string> {
    match rest
    case Failure(e) => Failure(e)
    case Success(more) => Success(done + more)
  }

  /** What `analyze_frames` returns for `paths`: the frames' dicts whose
      `media` is truthy, in frame order, or the first exception raised. */
  function SelectMedia(analyze: Analyzer, paths: seq<string>): Result<seq<Record>, string> {
    if paths == [] then Success([])
    else
      match analyze(paths[0])
      case Failure(e) => Failure(e)
      case Success(first) => Prepend(Kept(first), SelectMedia(analyze, paths[1..]))
  }

  /** The part of one frame's dict that `analyze_frames` appends. */
  function Kept(result: Record): seq<Record> {
    var r := OrNoMedia(result);
    if HasMedia(r) then [r] else []
  }

  /** One step of `analyze_frames`, from frame `i` on. */
  lemma SelectMediaStep(analyze: Analyzer, paths: seq<string>, i: nat)
    requires i < |paths|
    ensures SelectMedia(analyze, paths[i..]) ==
            match analyze(paths[i])
            case Failure(e) => Failure(e)
            case Success(first) => Prepend(Kept(first), SelectMedia(analyze, paths[i + 1..]))
  {
    assert paths[i..][0] == paths[i] && paths[i..][1..] == paths[i + 1..];
  }

  /** `analyze_frames`: one model call per frame, in order, appending the
      results whose `media` is truthy. */
  method AnalyzeFrames(backend: Backend, parse: Parser, paths: seq<string>, model: string)
    returns (r: Result<seq<Record>, string>)
    ensures r == SelectMedia(FrameAnalyzer(backend, parse, model), paths)
  {
    ghost var analyze := FrameAnalyzer(backend, parse, model);
    var results: seq<Record> := [];
    assert paths[0..] == paths;
    PrependChain([], SelectMedia(analyze, paths), Success([]));
    for i := 0 to |paths|
      invariant SelectMedia(analyze, paths) == Prepend(results, SelectMedia(analyze, paths[i..]))
    {
      var frame := AnalyzeFrame(backend, parse, paths[i], model);
      assert analyze(paths[i]) == frame;
      SelectMediaStep(analyze, paths, i);
      if frame.Failure? {
        return Failure(frame.error);
      }
      ghost var rest := SelectMedia(analyze, paths[i + 1..]);
      assert SelectMedia(analyze, paths[i..]) == Prepend(Kept(frame.value), rest);
      PrependPrepend(results, Kept(frame.value), rest);
      ghost var before := results;
      var result := OrNoMedia(frame.value);
      if HasMedia(result) {
        results := results + [result];
      }
      assert results == before + Kept(frame.value);
    }
    assert paths[|paths|..] == [];
    assert results + [] == results;
    r := Success(results);
  }

  /** Sequencing two batches of frames. */
  function Chain(first: Result<seq<Record>, string>, second: Result<seq<Record>, string>): Result<seq<Record>, string> {
    match first
    case Failure(e) => Failure(e)
    case Success(done) => Prepend(done, second)
  }

  lemma PrependPrepend(a: seq<Record>, b: seq<Record>, x: Result<seq<Record>, string>)
    ensures Prepend(a, Prepend(b, x)) == Prepend(a + b, x)
  {
    match x
    case Failure(e) =>
    case Success(m) => assert a + (b + m) == (a + b) + m;
  }

  lemma PrependChain(head: seq<Record>, x: Result<seq<Record>, string>, y: Result<seq<Record>, string>)
    ensures Chain(Prepend(head, x), y) == Prepend(head, Chain(x, y))
    ensures Prepend([], x) == x
  {
    match x
    case Failure(e) =>
    case Success(m) =>
      assert [] + m == m;
      match y
      case Failure(e) =>
      case Success(n) => assert head + (m + n) == (head + m) + n;
  }

  /** Frames are analysed independently and in order: the results for
      `a + b` are those for `a` followed by those for `b`, so nothing is
      merged across frames and no frame's result moves. */
  lemma {:induction false} SelectMediaAppend(analyze: Analyzer, a: seq<string>, b: seq<string>)
    ensures SelectMedia(analyze, a + b) == Chain(SelectMedia(analyze, a), SelectMedia(analyze, b))
  {
    if a == [] {
      assert a + b == b;
      match SelectMedia(analyze, b)
      case Failure(e) =>
      case Success(more) => assert [] + more == more;
    } else {
      assert (a + b)[0] == a[0];
      assert (a + b)[1..] == a[1..] + b;
      SelectMediaAppend(analyze, a[1..], b);
      match analyze(a[0])
      case Failure(e) =>
      case Success(first) => PrependChain(Kept(first), SelectMedia(analyze, a[1..]), SelectMedia(analyze, b));
    }
  }

  /** `analyze_frames` fails exactly when some frame's analysis raises, and
      then with the exception of the first such frame. */
  lemma {:induction false} SelectMediaFailure(analyze: Analyzer, paths: seq<string>)
    ensures SelectMedia(analyze, paths).Failure? <==>
            exists i :: 0 <= i < |paths| && analyze(paths[i]).Failure?
    ensures SelectMedia(analyze, paths).Failure? ==>
            exists i :: 0 <= i < |paths| && analyze(paths[i]) == Failure(SelectMedia(analyze, paths).error) &&
                        forall j :: 0 <= j < i ==> analyze(paths[j]).Success?
  {
    if paths != [] {
      var tail := paths[1..];
      SelectMediaFailure(analyze, tail);
      assert forall i :: 0 < i < |paths| ==> paths[i] == tail[i - 1];
      if analyze(paths[0]).Success? && SelectMedia(analyze, tail).Failure? {
        var i :| 0 <= i < |tail| && analyze(tail[i]) == Failure(SelectMedia(analyze, tail).error) &&
                 forall j :: 0 <= j < i ==> analyze(tail[j]).Success?;
        assert paths[i + 1] == tail[i];
      }
    }
  }

  /** When no frame raises, the results are at most one per frame, all with
      a truthy `media`, and a dict is among them iff some frame produced it
      and its `media` is truthy. */
  lemma {:induction false} SelectMediaSuccess(analyze: Analyzer, paths: seq<string>)
    requires SelectMedia(analyze, paths).Success?
    ensures var rs := SelectMedia(analyze, paths).value;
            |rs| <= |paths| &&
            (forall k :: 0 <= k < |rs| ==> HasMedia(rs[k])) &&
            (forall r :: r in rs <==>
                         (exists i :: 0 <= i < |paths| && analyze(paths[i]) == Success(r) && HasMedia(r)))
  {
    if paths != [] {
      var tail := paths[1..];
      var first := analyze(paths[0]).value;
      SelectMediaSuccess(analyze, tail);
      assert forall i :: 0 < i < |paths| ==> paths[i] == tail[i - 1];
      OrNoMediaKept(first);
      var rs := SelectMedia(analyze, paths).value;
      assert rs == Kept(first) + SelectMedia(analyze, tail).value;
      forall r ensures r in rs <==>
                       (exists i :: 0 <= i < |paths| && analyze(paths[i]) == Success(r) && HasMedia(r))
      {
        if r in rs && !(HasMedia(first) && r == first) {
          var i :| 0 <= i < |tail| && analyze(tail[i]) == Success(r) && HasMedia(r);
          assert paths[i + 1] == tail[i];
        }
      }
    }
  }

  /** How many frames of `paths` produce exactly the dict `r`. */
  function FramesProducing(analyze: Analyzer, paths: seq<string>, r: Record): nat {
    if paths == [] then 0
    else (if analyze(paths[0]) == Success(r) then 1 else 0) + FramesProducing(analyze, paths[1..], r)
  }

  /** No cross-frame deduplication: a dict with truthy `media` occurs in the
      output as many times as there are frames that produced it. */
  lemma {:induction false} SelectMediaKeepsRepeats(analyze: Analyzer, paths: seq<string>, r: Record)
    requires SelectMedia(analyze, paths).Success?
    requires HasMedia(r)
    ensures multiset(SelectMedia(analyze, paths).value)[r] == FramesProducing(analyze, paths, r)
  {
    if paths != [] {
      var first := analyze(paths[0]).value;
      OrNoMediaKept(first);
      SelectMediaKeepsRepeats(analyze, paths[1..], r);
      var rest := SelectMedia(analyze, paths[1..]).value;
      var head := Kept(first);
      assert SelectMedia(analyze, paths).value == head + rest;
      assert multiset(head + rest) == multiset(head) + multiset(rest);
    }
  }
}
