/**
 * The compile loop (SlideCompile.py:95-141). Each stripped line is classified
 * and applied to the pending slide, the dict current_slide_data; a NewSlide line
 * commits the pending slide when a format number is set, and so does the end
 * of the script. The first error aborts the whole compile and nothing is saved.
 *
 * StateAfter is the specification, one step per line; Compile is the loop.
 */
module Compiler {
  import opened Wrappers
  import opened Directives
  import opened Slides

  /** The format number of a pending slide that has none (SlideCompile.py:102). */
  const UNSET: int := -1

  /** current_slide_data: the fields of the slide being accumulated. */
  datatype Pending = Pending(formatNumber: int, title: string, content: string)

  const INITIAL: Pending := Pending(UNSET, "", "")

  /**
   * What stops a compile, with the 1-based line it happened at. add_slide's
   * handler reports its line; for an exception raised by a format-number line
   * the program reports no line, so that number is the model's own.
   */
  datatype CompileError =
    | BadLine(line: nat, error: LineError)          // a format-number line raised
    | SlideFailed(line: nat, failure: SlideFailure) // add_slide reported an error

  /** The compiler between two lines: still accumulating, or stopped at its first error. */
  datatype State = Running(data: Pending, deck: seq<Slide>) | Stopped(error: CompileError)

  /** Commit the pending slide when its format number is set (SlideCompile.py:116-119, 133-136). */
  function CommitPending(data: Pending, deck: seq<Slide>, line: nat, layouts: seq<Layout>): State {
    if data.formatNumber == UNSET then Running(data, deck)
    else match Commit(data.formatNumber, data.title, data.content, layouts)
      case Failure(failure) => Stopped(SlideFailed(line, failure))
      case Success(slide) => Running(data, deck + [slide])
  }

  /** One iteration of the loop, for the line numbered `number` classified as `directive`. */
  function Step(state: State, directive: Directive, number: nat, layouts: seq<Layout>): State {
    match state
    case Stopped(_) => state
    case Running(data, deck) =>
      match directive
      case NewSlide =>
        (match CommitPending(data, deck, number, layouts)
         case Stopped(error) => Stopped(error)
         case Running(_, deck') => Running(data.(content := ""), deck'))
      case FormatNumber(n) => Running(data.(formatNumber := n), deck)
      case Title(text) => Running(data.(title := text), deck)
      case Content(text) => Running(data.(content := data.content + text + "\n"), deck)
      case Malformed(error) => Stopped(BadLine(number, error))
      case Unrecognized => state
  }

  /** The state after the first k directives of a classified script. */
  function StateAfter(script: seq<Directive>, layouts: seq<Layout>, k: nat): State
    requires k <= |script|
  {
    if k == 0 then Running(INITIAL, [])
    else Step(StateAfter(script, layouts, k - 1), script[k - 1], k, layouts)
  }

  /** The end of the script: the last commit, reported against the last line. */
  function Finish(state: State, lastLine: nat, layouts: seq<Layout>): Result<seq<Slide>, CompileError> {
    match state
    case Stopped(error) => Failure(error)
    case Running(data, deck) =>
      match CommitPending(data, deck, lastLine, layouts)
      case Stopped(error) => Failure(error)
      case Running(_, deck') => Success(deck')
  }

  /** The slides a classified script compiles to (what would be saved), or the error that aborts it. */
  function Run(script: seq<Directive>, layouts: seq<Layout>): Result<seq<Slide>, CompileError> {
    Finish(StateAfter(script, layouts, |script|), |script|, layouts)
  }

  /** Every line of the script, classified. */
  function ClassifyAll(lines: seq<string>): (script: seq<Directive>)
    ensures |script| == |lines|
  {
    seq(|lines|, i requires 0 <= i < |lines| => Classify(lines[i]))
  }

  function CompileScript(lines: seq<string>, layouts: seq<Layout>): Result<seq<Slide>, CompileError> {
    Run(ClassifyAll(lines), layouts)
  }

  /** Once stopped, later lines change nothing: the first error is the one reported. */
  lemma {:induction false} StoppedStays(script: seq<Directive>, layouts: seq<Layout>, k: nat, m: nat)
    requires k <= m <= |script|
    requires StateAfter(script, layouts, k).Stopped?
    ensures StateAfter(script, layouts, m) == StateAfter(script, layouts, k)
    decreases m - k
  {
    if k < m {
      StoppedStays(script, layouts, k + 1, m);
    }
  }

  /** compile(): the loop over the script's lines, then the last commit. */
  method Compile(lines: seq<string>, layouts: seq<Layout>) returns (outcome: Result<seq<Slide>, CompileError>)
    ensures outcome == CompileScript(lines, layouts)
  {
    var data := INITIAL;
    var prs := new Presentation(layouts);
    var lineNumber := 0;
    ghost var script := ClassifyAll(lines);
    while lineNumber < |lines|
      invariant lineNumber <= |lines|
      invariant prs.layouts == layouts
      invariant StateAfter(script, layouts, lineNumber) == Running(data, prs.slides)
    {
      var line := lines[lineNumber];
      lineNumber := lineNumber + 1;
      var directive := Classify(line);
      assert script[lineNumber - 1] == directive;
      ghost var next := Step(Running(data, prs.slides), directive, lineNumber, layouts);
      assert StateAfter(script, layouts, lineNumber) == next;
      match directive
      case NewSlide =>
        if data.formatNumber != UNSET {
          var failure := prs.AddSlide(data.formatNumber, data.title, data.content);
          if failure.Some? {
            assert next == Stopped(SlideFailed(lineNumber, failure.value));
            StoppedStays(script, layouts, lineNumber, |lines|);
            return Failure(SlideFailed(lineNumber, failure.value));
          }
        }
        data := data.(content := "");
      case FormatNumber(n) =>
        data := data.(formatNumber := n);
      case Title(text) =>
        data := data.(title := text);
      case Content(text) =>
        data := data.(content := data.content + text + "\n");
      case Malformed(error) =>
        assert next == Stopped(BadLine(lineNumber, error));
        StoppedStays(script, layouts, lineNumber, |lines|);
        return Failure(BadLine(lineNumber, error));
      case Unrecognized =>
    }
    assert CompileScript(lines, layouts) == Finish(Running(data, prs.slides), lineNumber, layouts);
    if data.formatNumber != UNSET {
      var failure := prs.AddSlide(data.formatNumber, data.title, data.content);
      if failure.Some? {
        return Failure(SlideFailed(lineNumber, failure.value));
      }
    }
    return Success(prs.slides);
  }
}
