/**
  The command-line entry point of scripts/extract_card_vlm.py (`main`): it
  reads the image path and an optional `--model MODEL` from `sys.argv`,
  checks that the file exists and prints the record that `analyze_frame`
  produces. That script's `analyze_frame` parses the reply with the same
  code as the one in instarec/analyze.py and is modelled once, as
  `Analysis.AnalyzeFrame`; it sends its own prompt (listing "app" where the
  package lists "book"), so its model call is a different `Backend`.
  `os.path.exists` is a parameter; the JSON text printed is the record.
 */
module CardVlm {
  import opened Wrappers
  import opened Analysis

  const UsageMessage := "Usage: extract_card_vlm.py <image_path> [--model MODEL]"
  const ModelFlag := "--model"

  /** `xs.index(x)` guarded by `x in xs`: the position of the first `x`, or
      `None` when there is none. */
  function FirstIndex(xs: seq<string>, x: string): (r: Option<nat>)
    ensures r.None? <==> x !in xs
    ensures r.Some? ==> r.value < |xs| && xs[r.value] == x
    ensures r.Some? ==> forall k :: 0 <= k < r.value ==> xs[k] != x
  {
    if xs == [] then None
    else if xs[0] == x then Some(0)
    else
      match FirstIndex(xs[1..], x)
      case None => None
      case Some(i) => Some(i + 1)
  }

  /** The model the script uses: the argument after the first `--model`, or
      the default when there is no `--model` or nothing follows it. */
  function ModelArg(argv: seq<string>): (model: string)
    ensures ModelFlag !in argv ==> model == DefaultModel
  {
    match FirstIndex(argv, ModelFlag)
    case None => DefaultModel
    case Some(idx) => if idx + 1 < |argv| then argv[idx + 1] else DefaultModel
  }

  /** The first `--model` decides: the word after it is the model, whatever
      later `--model` flags say. */
  lemma ModelAfterFirstFlag(argv: seq<string>, i: nat)
    requires i + 1 < |argv| && argv[i] == ModelFlag
    requires forall k :: 0 <= k < i ==> argv[k] != ModelFlag
    ensures ModelArg(argv) == argv[i + 1]
  {
    assert FirstIndex(argv, ModelFlag) == Some(i);
  }

  /** A `--model` with nothing after it, and no earlier one, keeps the default. */
  lemma TrailingFlagKeepsDefault(argv: seq<string>)
    requires argv != [] && argv[|argv| - 1] == ModelFlag
    requires ModelFlag !in argv[..|argv| - 1]
    ensures ModelArg(argv) == DefaultModel
  {
    assert forall k :: 0 <= k < |argv| - 1 ==> argv[k] == argv[..|argv| - 1][k];
    assert FirstIndex(argv, ModelFlag) == Some(|argv| - 1);
  }

  /** How a run of the script ends: `sys.exit(status)` after a message, an
      exception escaping `analyze_frame`, or the result record printed. */
  datatype ScriptEnd =
    | Exited(status: int, message: string)
    | Raised(error: string)
    | Printed(result: Record)

  /** `main()`, given the argument list, `os.path.exists` and the model
      behind `analyze_frame`. */
  function RunScript(argv: seq<string>, fileExists: string -> bool, backend: Backend, parse: Parser): (r: ScriptEnd)
    ensures |argv| < 2 ==> r == Exited(1, UsageMessage)
    ensures |argv| >= 2 && !fileExists(argv[1]) ==> r == Exited(1, "File not found: " + argv[1])
    ensures r.Raised? <==> |argv| >= 2 && fileExists(argv[1]) && backend(argv[1], ModelArg(argv)).Failure?
    ensures r.Printed? ==> "media" in r.result
  {
    if |argv| < 2 then Exited(1, UsageMessage)
    else
      var path := argv[1];
      var model := ModelArg(argv);
      if !fileExists(path) then Exited(1, "File not found: " + path)
      else
        match AnalyzeFrame(backend, parse, path, model)
        case Failure(e) => Raised(e)
        case Success(record) => Printed(record)
  }

  /** The image path is always `argv[1]`, even when it reads `--model`; the
      model flag is then found at that same position. */
  lemma PathIsFirstArgument(argv: seq<string>, fileExists: string -> bool, backend: Backend, parse: Parser)
    requires |argv| >= 3 && argv[1] == ModelFlag && argv[0] != ModelFlag
    requires fileExists(ModelFlag)
    ensures RunScript(argv, fileExists, backend, parse) ==
      match AnalyzeFrame(backend, parse, ModelFlag, argv[2])
      case Failure(e) => Raised(e)
      case Success(record) => Printed(record)
  {
    ModelAfterFirstFlag(argv, 1);
  }

  /** A missing file ends the run before any analysis: the outcome does not
      depend on the model backend at all. */
  lemma MissingFileSkipsAnalysis(argv: seq<string>, fileExists: string -> bool, b1: Backend, b2: Backend, parse: Parser)
    requires |argv| >= 2 && !fileExists(argv[1])
    ensures RunScript(argv, fileExists, b1, parse) == RunScript(argv, fileExists, b2, parse)
    ensures RunScript(argv, fileExists, b1, parse).Exited?
  {
  }

  /** The printed record is what the shared `analyze_frame` returns for
      `argv[1]` and the chosen model. */
  lemma PrintedIsAnalysis(argv: seq<string>, fileExists: string -> bool, backend: Backend, parse: Parser)
    requires RunScript(argv, fileExists, backend, parse).Printed?
    ensures var r := RunScript(argv, fileExists, backend, parse).result;
      |argv| >= 2 && fileExists(argv[1]) &&
      AnalyzeFrame(backend, parse, argv[1], ModelArg(argv)) == Success(r)
  {
  }
}
