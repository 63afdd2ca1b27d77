/**
 * What the compile loop promises, stated against reference definitions that
 * read the classified script directly instead of running the state machine:
 * last write wins for the format number and the title, content is the
 * `Content:` lines since the last NewSlide, a NewSlide commits exactly when a
 * format number is set, and the first error aborts everything.
 */
module CompilerProperties {
  import opened Wrappers
  import opened Text
  import opened Directives
  import opened Slides
  import opened Compiler

  /** The value of the last `FormatNumber` directive, or UNSET when there is none. */
  function LastFormat(script: seq<Directive>): int {
    if script == [] then UNSET
    else match script[|script| - 1]
      case FormatNumber(n) => n
      case _ => LastFormat(script[..|script| - 1])
  }

  /** The text of the last `Title` directive, or "" when there is none. */
  function LastTitle(script: seq<Directive>): string {
    if script == [] then ""
    else match script[|script| - 1]
      case Title(text) => text
      case _ => LastTitle(script[..|script| - 1])
  }

  /** The directives after the last NewSlide. */
  function CurrentSlide(script: seq<Directive>): seq<Directive> {
    if script == [] then []
    else if script[|script| - 1] == NewSlide then []
    else CurrentSlide(script[..|script| - 1]) + [script[|script| - 1]]
  }

  /** The texts of the `Content` directives, in order. */
  function ContentTexts(script: seq<Directive>): seq<string> {
    if script == [] then []
    else match script[|script| - 1]
      case Content(text) => ContentTexts(script[..|script| - 1]) + [text]
      case _ => ContentTexts(script[..|script| - 1])
  }

  /** How many NewSlide directives come while a format number is set. */
  function CommitPoints(script: seq<Directive>): nat {
    if script == [] then 0
    else
      var init := script[..|script| - 1];
      CommitPoints(init) + if script[|script| - 1] == NewSlide && LastFormat(init) != UNSET then 1 else 0
  }

  /** The content the pending slide holds after a script prefix. */
  function PendingContent(script: seq<Directive>): string {
    ContentOf(ContentTexts(CurrentSlide(script)))
  }

  /** A state reached after k directives came through the state reached after k - 1. */
  lemma RunningBefore(script: seq<Directive>, layouts: seq<Layout>, k: nat)
    requires 0 < k <= |script|
    requires StateAfter(script, layouts, k).Running?
    ensures StateAfter(script, layouts, k - 1).Running?
    ensures script[..k][..k - 1] == script[..k - 1] && script[..k][k - 1] == script[k - 1]
  {
  }

  /** Format numbers: the last one written wins, across slides too. */
  lemma {:induction false} FormatIsLastWritten(script: seq<Directive>, layouts: seq<Layout>, k: nat)
    requires k <= |script|
    requires StateAfter(script, layouts, k).Running?
    ensures StateAfter(script, layouts, k).data.formatNumber == LastFormat(script[..k])
  {
    if k > 0 {
      RunningBefore(script, layouts, k);
      FormatIsLastWritten(script, layouts, k - 1);
    }
  }

  /** Titles: the last one written wins, and a title carries over to the following slides. */
  lemma {:induction false} TitleIsLastWritten(script: seq<Directive>, layouts: seq<Layout>, k: nat)
    requires k <= |script|
    requires StateAfter(script, layouts, k).Running?
    ensures StateAfter(script, layouts, k).data.title == LastTitle(script[..k])
  {
    if k > 0 {
      RunningBefore(script, layouts, k);
      TitleIsLastWritten(script, layouts, k - 1);
    }
  }

  /** Content: the `Content` texts since the last NewSlide, in order, each followed by one newline. */
  lemma {:induction false} ContentIsCurrentSlide(script: seq<Directive>, layouts: seq<Layout>, k: nat)
    requires k <= |script|
    requires StateAfter(script, layouts, k).Running?
    ensures StateAfter(script, layouts, k).data.content == PendingContent(script[..k])
  {
    if k > 0 {
      RunningBefore(script, layouts, k);
      ContentIsCurrentSlide(script, layouts, k - 1);
      PendingContentSnoc(script[..k - 1], script[k - 1]);
    }
  }

  /** One more directive adds to the pending content exactly what one step of the loop adds. */
  lemma PendingContentSnoc(init: seq<Directive>, d: Directive)
    ensures PendingContent(init + [d]) ==
      match d
      case NewSlide => ""
      case Content(text) => PendingContent(init) + text + "\n"
      case _ => PendingContent(init)
  {
    var script := init + [d];
    assert script[..|script| - 1] == init;
    if d != NewSlide {
      var current := CurrentSlide(init) + [d];
      assert CurrentSlide(script) == current;
      assert current[..|current| - 1] == CurrentSlide(init);
      if d.Content? {
        var texts := ContentTexts(current);
        assert texts == ContentTexts(CurrentSlide(init)) + [d.text];
        assert texts[..|texts| - 1] == ContentTexts(CurrentSlide(init));
      }
    }
  }

  /** The deck holds one slide per commit point seen so far. */
  lemma {:induction false} DeckCountsCommits(script: seq<Directive>, layouts: seq<Layout>, k: nat)
    requires k <= |script|
    requires StateAfter(script, layouts, k).Running?
    ensures |StateAfter(script, layouts, k).deck| == CommitPoints(script[..k])
  {
    if k > 0 {
      RunningBefore(script, layouts, k);
      DeckCountsCommits(script, layouts, k - 1);
      FormatIsLastWritten(script, layouts, k - 1);
    }
  }

  /**
   * The slides committed by the NewSlide directives of a script, in order: each
   * NewSlide met while a format number is set adds the slide built from the last
   * format number, the last title and the content since the previous NewSlide.
   */
  function CommittedSlides(script: seq<Directive>, layouts: seq<Layout>): seq<Slide> {
    if script == [] then []
    else
      var init := script[..|script| - 1];
      var commit := Commit(LastFormat(init), LastTitle(init), PendingContent(init), layouts);
      CommittedSlides(init, layouts) +
        if script[|script| - 1] == NewSlide && LastFormat(init) != UNSET && commit.Success? then [commit.value] else []
  }

  /** The deck holds exactly the slides committed so far, in the order they were committed. */
  lemma {:induction false} DeckIsCommitted(script: seq<Directive>, layouts: seq<Layout>, k: nat)
    requires k <= |script|
    requires StateAfter(script, layouts, k).Running?
    ensures StateAfter(script, layouts, k).deck == CommittedSlides(script[..k], layouts)
  {
    if k > 0 {
      RunningBefore(script, layouts, k);
      DeckIsCommitted(script, layouts, k - 1);
      DeckStep(script, layouts, k);
    }
  }

  /** One line keeps the deck equal to the slides committed so far. */
  lemma DeckStep(script: seq<Directive>, layouts: seq<Layout>, k: nat)
    requires 0 < k <= |script|
    requires StateAfter(script, layouts, k).Running?
    requires StateAfter(script, layouts, k - 1).Running?
    requires StateAfter(script, layouts, k - 1).deck == CommittedSlides(script[..k - 1], layouts)
    ensures StateAfter(script, layouts, k).deck == CommittedSlides(script[..k], layouts)
  {
    CommittedSlidesStep(script, layouts, k);
    if script[k - 1] == NewSlide {
      NewSlideCommits(script, layouts, k - 1);
    } else {
      OtherLinesKeepDeck(script, layouts, k - 1);
    }
  }

  /** CommittedSlides over the first k directives, one directive at a time. */
  lemma CommittedSlidesStep(script: seq<Directive>, layouts: seq<Layout>, k: nat)
    requires 0 < k <= |script|
    ensures
      var init := script[..k - 1];
      var commit := Commit(LastFormat(init), LastTitle(init), PendingContent(init), layouts);
      CommittedSlides(script[..k], layouts) == CommittedSlides(init, layouts) +
        if script[k - 1] == NewSlide && LastFormat(init) != UNSET && commit.Success? then [commit.value] else []
  {
    assert script[..k][..k - 1] == script[..k - 1];
  }

  /** Only a NewSlide line changes the deck: the other directives leave it as it was. */
  lemma OtherLinesKeepDeck(script: seq<Directive>, layouts: seq<Layout>, k: nat)
    requires k < |script| && script[k] != NewSlide
    requires StateAfter(script, layouts, k + 1).Running?
    ensures StateAfter(script, layouts, k).Running?
    ensures StateAfter(script, layouts, k + 1).deck == StateAfter(script, layouts, k).deck
  {
  }

  /** Committed slides are never changed or removed: a shorter prefix commits a prefix of the slides. */
  lemma {:induction false} CommittedSlidesGrow(script: seq<Directive>, layouts: seq<Layout>, j: nat, k: nat)
    requires j <= k <= |script|
    ensures CommittedSlides(script[..j], layouts) <= CommittedSlides(script[..k], layouts)
    decreases k - j
  {
    if j < k {
      CommittedSlidesGrow(script, layouts, j, k - 1);
      CommittedSlidesStep(script, layouts, k);
    }
  }

  /**
   * The slides in the deck after k lines reach the compiled result unchanged,
   * in the same positions; the result only adds slides after them.
   */
  lemma EarlierSlidesKept(script: seq<Directive>, layouts: seq<Layout>, k: nat)
    requires k <= |script|
    requires Run(script, layouts).Success?
    ensures StateAfter(script, layouts, k).Running?
    ensures StateAfter(script, layouts, k).deck <= Run(script, layouts).value
  {
    var n := |script|;
    if StateAfter(script, layouts, k).Stopped? {
      StoppedStays(script, layouts, k, n);
    }
    assert StateAfter(script, layouts, n).Running?;
    DeckIsCommitted(script, layouts, k);
    DeckIsCommitted(script, layouts, n);
    CommittedSlidesGrow(script, layouts, k, n);
    assert script[..n] == script;
    EndCommits(script, layouts);
  }

  /**
   * A NewSlide commits the pending slide exactly when a format number is set,
   * from the last format number, the last title and the content since the last
   * NewSlide; a failing commit stops the compile at this line. Either way only
   * the content is reset: title and format number carry over.
   */
  lemma NewSlideCommits(script: seq<Directive>, layouts: seq<Layout>, k: nat)
    requires k < |script| && script[k] == NewSlide
    requires StateAfter(script, layouts, k).Running?
    ensures
      var before := StateAfter(script, layouts, k);
      var after := StateAfter(script, layouts, k + 1);
      var format := LastFormat(script[..k]);
      var commit := Commit(format, LastTitle(script[..k]), PendingContent(script[..k]), layouts);
      && (format == UNSET ==> after == Running(before.data.(content := ""), before.deck))
      && (format != UNSET && commit.Failure? ==> after == Stopped(SlideFailed(k + 1, commit.error)))
      && (format != UNSET && commit.Success? ==> after == Running(before.data.(content := ""), before.deck + [commit.value]))
  {
    FormatIsLastWritten(script, layouts, k);
    TitleIsLastWritten(script, layouts, k);
    ContentIsCurrentSlide(script, layouts, k);
  }

  /** The end of the script commits once more, under the same condition, against the last line. */
  lemma EndCommits(script: seq<Directive>, layouts: seq<Layout>)
    requires StateAfter(script, layouts, |script|).Running?
    ensures StateAfter(script, layouts, |script|).deck == CommittedSlides(script, layouts)
    ensures
      var deck := CommittedSlides(script, layouts);
      var format := LastFormat(script);
      var commit := Commit(format, LastTitle(script), PendingContent(script), layouts);
      && (format == UNSET ==> Run(script, layouts) == Success(deck))
      && (format != UNSET && commit.Failure? ==> Run(script, layouts) == Failure(SlideFailed(|script|, commit.error)))
      && (format != UNSET && commit.Success? ==> Run(script, layouts) == Success(deck + [commit.value]))
  {
    var n := |script|;
    assert script[..n] == script;
    FormatIsLastWritten(script, layouts, n);
    TitleIsLastWritten(script, layouts, n);
    ContentIsCurrentSlide(script, layouts, n);
    DeckIsCommitted(script, layouts, n);
  }

  /**
   * A compiled deck has one slide per NewSlide met while a format number was
   * set, plus one when a format number is set at the end of the script.
   */
  lemma SlideCount(script: seq<Directive>, layouts: seq<Layout>)
    requires Run(script, layouts).Success?
    ensures |Run(script, layouts).value| == CommitPoints(script) + if LastFormat(script) != UNSET then 1 else 0
  {
    var n := |script|;
    assert script[..n] == script;
    DeckCountsCommits(script, layouts, n);
    EndCommits(script, layouts);
  }

  /** Without a format number nothing is ever committed: a script of other directives compiles to no slides. */
  lemma {:induction false} NoFormatNumberNoSlides(script: seq<Directive>, layouts: seq<Layout>, k: nat)
    requires k <= |script|
    requires forall j :: 0 <= j < |script| ==> !script[j].FormatNumber? && !script[j].Malformed?
    ensures StateAfter(script, layouts, k).Running?
    ensures StateAfter(script, layouts, k).data.formatNumber == UNSET
    ensures StateAfter(script, layouts, k).deck == []
    ensures k == |script| ==> Run(script, layouts) == Success([])
  {
    if k > 0 {
      NoFormatNumberNoSlides(script, layouts, k - 1);
      assert !script[k - 1].FormatNumber? && !script[k - 1].Malformed?;
    }
  }

  /** The state after k directives depends on those k directives only. */
  lemma {:induction false} SamePrefixSameState(script: seq<Directive>, other: seq<Directive>, layouts: seq<Layout>, k: nat)
    requires k <= |script| && k <= |other| && script[..k] == other[..k]
    ensures StateAfter(script, layouts, k) == StateAfter(other, layouts, k)
  {
    if k > 0 {
      assert script[k - 1] == script[..k][k - 1] == other[k - 1];
      assert script[..k - 1] == script[..k][..k - 1];
      assert other[..k - 1] == other[..k][..k - 1];
      SamePrefixSameState(script, other, layouts, k - 1);
    }
  }

  /** Fail fast: once a prefix of the script has stopped, nothing after it matters. */
  lemma FailFast(script: seq<Directive>, rest: seq<Directive>, layouts: seq<Layout>)
    requires StateAfter(script, layouts, |script|).Stopped?
    ensures Run(script + rest, layouts) == Failure(StateAfter(script, layouts, |script|).error)
  {
    var whole := script + rest;
    assert whole[..|script|] == script[..|script|];
    SamePrefixSameState(whole, script, layouts, |script|);
    StoppedStays(whole, layouts, |script|, |whole|);
  }

  /** A malformed format-number line aborts the compile with its own line number. */
  lemma MalformedAborts(script: seq<Directive>, layouts: seq<Layout>, k: nat)
    requires k < |script| && script[k].Malformed?
    requires StateAfter(script, layouts, k).Running?
    ensures Run(script, layouts) == Failure(BadLine(k + 1, script[k].error))
  {
    StoppedStays(script, layouts, k + 1, |script|);
  }

  /** An error reported against a line after `after` moves down one line. */
  function ShiftError(error: CompileError, after: nat): CompileError {
    if error.line > after then error.(line := error.line + 1) else error
  }

  function ShiftState(state: State, after: nat): State {
    match state
    case Running(_, _) => state
    case Stopped(error) => Stopped(ShiftError(error, after))
  }

  function ShiftResult(result: Result<seq<Slide>, CompileError>, after: nat): Result<seq<Slide>, CompileError> {
    match result
    case Success(_) => result
    case Failure(error) => Failure(ShiftError(error, after))
  }

  lemma StepShifted(state: State, directive: Directive, number: nat, after: nat, layouts: seq<Layout>)
    requires number > after
    ensures Step(ShiftState(state, after), directive, number + 1, layouts) == ShiftState(Step(state, directive, number, layouts), after)
  {
  }

  lemma {:induction false} ShiftedStates(a: seq<Directive>, b: seq<Directive>, layouts: seq<Layout>, j: nat)
    requires j <= |b|
    ensures StateAfter(a + [Unrecognized] + b, layouts, |a| + 1 + j) == ShiftState(StateAfter(a + b, layouts, |a| + j), |a|)
  {
    var longer, shorter := a + [Unrecognized] + b, a + b;
    if j == 0 {
      assert longer[..|a|] == a == shorter[..|a|];
      SamePrefixSameState(longer, shorter, layouts, |a|);
      assert longer[|a|] == Unrecognized;
      var s := StateAfter(shorter, layouts, |a|);
      if s.Stopped? {
        assert s.error.line <= |a| by {
          StoppedWithin(shorter, layouts, |a|);
        }
      }
    } else {
      ShiftedStates(a, b, layouts, j - 1);
      assert longer[|a| + j] == b[j - 1] == shorter[|a| + j - 1];
      StepShifted(StateAfter(shorter, layouts, |a| + j - 1), b[j - 1], |a| + j, |a|, layouts);
    }
  }

  /** An error met within the first k directives is reported against one of them. */
  lemma {:induction false} StoppedWithin(script: seq<Directive>, layouts: seq<Layout>, k: nat)
    requires k <= |script|
    requires StateAfter(script, layouts, k).Stopped?
    ensures StateAfter(script, layouts, k).error.line <= k
  {
    if k > 0 && StateAfter(script, layouts, k - 1).Stopped? {
      StoppedWithin(script, layouts, k - 1);
    }
  }

  /**
   * An unrecognised line is ignored: inserting one leaves the outcome as it was,
   * except that errors reported after it move down one line. Appended at the
   * end, it leaves an error met within the script as it was, but the final
   * commit is reported against the last line, so a failing final commit moves
   * down to the appended line.
   */
  lemma UnrecognizedIgnored(a: seq<Directive>, b: seq<Directive>, layouts: seq<Layout>)
    ensures Run(a + [Unrecognized] + b, layouts).Success? == Run(a + b, layouts).Success?
    ensures Run(a + b, layouts).Success? ==> Run(a + [Unrecognized] + b, layouts) == Run(a + b, layouts)
    ensures b != [] ==> Run(a + [Unrecognized] + b, layouts) == ShiftResult(Run(a + b, layouts), |a|)
    ensures b == [] && StateAfter(a, layouts, |a|).Stopped? ==>
      Run(a + [Unrecognized] + b, layouts) == Run(a, layouts)
    ensures b == [] && StateAfter(a, layouts, |a|).Running? && Run(a, layouts).Failure? ==>
      Run(a + [Unrecognized] + b, layouts) == Failure(Run(a, layouts).error.(line := |a| + 1))
  {
    var longer, shorter := a + [Unrecognized] + b, a + b;
    ShiftedStates(a, b, layouts, |b|);
    assert |longer| == |a| + 1 + |b| && |shorter| == |a| + |b|;
    if b == [] {
      assert longer == a + [Unrecognized];
      TrailingUnrecognized(a, layouts);
      assert Run(longer, layouts) == Finish(StateAfter(a, layouts, |a|), |a| + 1, layouts);
    }
  }

  /** An unrecognised last line leaves the state after the loop as it was. */
  lemma TrailingUnrecognized(a: seq<Directive>, layouts: seq<Layout>)
    ensures StateAfter(a + [Unrecognized], layouts, |a| + 1) == StateAfter(a, layouts, |a|)
  {
    var longer := a + [Unrecognized];
    assert longer + [] == longer && a + [] == a;
    ShiftedStates(a, [], layouts, 0);
    if StateAfter(a, layouts, |a|).Stopped? {
      StoppedWithin(a, layouts, |a|);
    }
  }

  /**
   * A script that ends with NewSlide closes its last slide twice: NewSlide keeps
   * the format number and the title, so the end of the script adds one more
   * slide with the same layout and title and no paragraphs.
   */
  lemma TrailingNewSlideRepeats(script: seq<Directive>, layouts: seq<Layout>)
    requires script != [] && script[|script| - 1] == NewSlide
    requires Run(script, layouts).Success? && LastFormat(script) != UNSET
    ensures var deck := Run(script, layouts).value;
      && |deck| >= 2
      && deck[|deck| - 1] == Slide(deck[|deck| - 2].layout, deck[|deck| - 2].title, [])
  {
    var n := |script|;
    var k := n - 1;
    assert StateAfter(script, layouts, n).Running?;
    RunningBefore(script, layouts, n);
    NewSlideCommits(script, layouts, k);
    EndCommits(script, layouts);
    var format, title := LastFormat(script[..k]), LastTitle(script[..k]);
    assert LastFormat(script) == format && LastTitle(script) == title;
    assert PendingContent(script) == "" by {
      assert CurrentSlide(script) == [];
    }
    var first := Commit(format, title, PendingContent(script[..k]), layouts);
    var last := Commit(format, title, "", layouts);
    assert first.Success? && last.Success?;
    var i := LayoutIndex(format, |layouts|).value;
    assert first.value.layout == i && first.value.title == title;
    assert last.value == Slide(i, title, []);
  }

  /** No `Content` text of the script holds a newline (true of lines read with readlines()). */
  predicate OneLineContents(script: seq<Directive>) {
    forall j :: 0 <= j < |script| && script[j].Content? ==> '\n' !in script[j].text
  }

  lemma {:induction false} ContentTextsOneLine(script: seq<Directive>)
    requires OneLineContents(script)
    ensures forall k :: 0 <= k < |ContentTexts(CurrentSlide(script))| ==> '\n' !in ContentTexts(CurrentSlide(script))[k]
  {
    if script != [] {
      var init := script[..|script| - 1];
      ContentTextsOneLine(init);
      var d := script[|script| - 1];
      if d != NewSlide {
        var current := CurrentSlide(init) + [d];
        assert current[..|current| - 1] == CurrentSlide(init);
      }
    }
  }

  lemma OneLinePrefix(script: seq<Directive>, k: nat)
    requires k <= |script| && OneLineContents(script)
    ensures OneLineContents(script[..k])
  {
    forall j | 0 <= j < k && script[..k][j].Content?
      ensures '\n' !in script[..k][j].text
    {
      assert script[..k][j] == script[j];
    }
  }

  /**
   * The slide a NewSlide commits: the layout the last format number selects,
   * the last title, and one paragraph per `Content` line since the last
   * NewSlide, in order, followed by one empty paragraph (content.split('\n')
   * keeps the piece after the final newline).
   */
  lemma CommittedParagraphs(script: seq<Directive>, layouts: seq<Layout>, k: nat)
    requires k < |script| && script[k] == NewSlide
    requires OneLineContents(script)
    requires StateAfter(script, layouts, k).Running? && StateAfter(script, layouts, k + 1).Running?
    requires LastFormat(script[..k]) != UNSET
    ensures |StateAfter(script, layouts, k + 1).deck| == |StateAfter(script, layouts, k).deck| + 1
    ensures
      var slide := StateAfter(script, layouts, k + 1).deck[|StateAfter(script, layouts, k).deck|];
      var texts := ContentTexts(CurrentSlide(script[..k]));
      && slide.layout == (LastFormat(script[..k]) - 1) % |layouts|
      && slide.title == LastTitle(script[..k])
      && slide.paragraphs == if texts == [] then [] else texts + [""]
  {
    var format, title := LastFormat(script[..k]), LastTitle(script[..k]);
    var texts := ContentTexts(CurrentSlide(script[..k]));
    CommitAppends(script, layouts, k);
    CurrentTextsOneLine(script, k);
    CommittedSlide(format, title, texts, layouts);
    var before := StateAfter(script, layouts, k).deck;
    assert StateAfter(script, layouts, k + 1).deck[|before|] == Commit(format, title, ContentOf(texts), layouts).value;
  }

  /** The content lines of the slide pending after a prefix hold no newline. */
  lemma CurrentTextsOneLine(script: seq<Directive>, k: nat)
    requires k <= |script| && OneLineContents(script)
    ensures var texts := ContentTexts(CurrentSlide(script[..k]));
      forall j :: 0 <= j < |texts| ==> '\n' !in texts[j]
  {
    OneLinePrefix(script, k);
    ContentTextsOneLine(script[..k]);
  }

  /** A NewSlide that commits puts the committed slide right after the slides already in the deck. */
  lemma CommitAppends(script: seq<Directive>, layouts: seq<Layout>, k: nat)
    requires k < |script| && script[k] == NewSlide
    requires StateAfter(script, layouts, k).Running? && StateAfter(script, layouts, k + 1).Running?
    requires LastFormat(script[..k]) != UNSET
    ensures
      var before := StateAfter(script, layouts, k).deck;
      var after := StateAfter(script, layouts, k + 1).deck;
      var commit := Commit(LastFormat(script[..k]), LastTitle(script[..k]), ContentOf(ContentTexts(CurrentSlide(script[..k]))), layouts);
      && commit.Success?
      && after == before + [commit.value]
  {
    NewSlideCommits(script, layouts, k);
  }

  /** f applied to every element of s, in order. */
  function Map<A, B>(f: A -> B, s: seq<A>): (r: seq<B>)
    ensures |r| == |s|
  {
    seq(|s|, i requires 0 <= i < |s| => f(s[i]))
  }

  /** Mapping a function over two sequences one after the other maps it over their concatenation. */
  lemma MapAppend<A, B>(f: A -> B, front: seq<A>, back: seq<A>)
    ensures Map(f, front + back) == Map(f, front) + Map(f, back)
  {
    var whole := front + back;
    var all := Map(f, whole);
    assert all[..|front|] == Map(f, front) by {
      forall i | 0 <= i < |front|
        ensures all[i] == Map(f, front)[i]
      {
        assert whole[i] == front[i];
      }
    }
    assert all[|front|..] == Map(f, back) by {
      forall i | 0 <= i < |back|
        ensures all[|front| + i] == Map(f, back)[i]
      {
        assert whole[|front| + i] == back[i];
      }
    }
    assert all == all[..|front|] + all[|front|..];
  }

  /** Classifying a script line by line splits along with it. */
  lemma ClassifyAllAppend(front: seq<string>, back: seq<string>)
    ensures ClassifyAll(front + back) == ClassifyAll(front) + ClassifyAll(back)
  {
    MapAppend(Classify, front, back);
    ClassifyAllIsMap(front + back);
    ClassifyAllIsMap(front);
    ClassifyAllIsMap(back);
  }

  lemma ClassifyAllIsMap(lines: seq<string>)
    ensures ClassifyAll(lines) == Map(Classify, lines)
  {
    forall i | 0 <= i < |lines|
      ensures ClassifyAll(lines)[i] == Map(Classify, lines)[i]
    {
    }
  }

  /** Lines read from a file hold no newline once stripped, so neither do their `Content:` payloads. */
  lemma OneLineScript(lines: seq<string>)
    requires forall j :: 0 <= j < |lines| ==> '\n' !in Strip(lines[j])
    ensures OneLineContents(ClassifyAll(lines))
  {
    var script := ClassifyAll(lines);
    forall j | 0 <= j < |script| && script[j].Content?
      ensures '\n' !in script[j].text
    {
      assert script[j] == Classify(lines[j]);
      ContentTextWithin(lines[j], '\n');
    }
  }

  /**
   * Unrecognised lines, blank ones among them, are ignored: inserting one into a
   * script leaves the compiled deck as it was; errors after it move down a line.
   */
  lemma UnrecognizedLineIgnored(front: seq<string>, line: string, back: seq<string>, layouts: seq<Layout>)
    requires Classify(line) == Unrecognized
    ensures CompileScript(front + [line] + back, layouts).Success? == CompileScript(front + back, layouts).Success?
    ensures CompileScript(front + back, layouts).Success? ==>
      CompileScript(front + [line] + back, layouts) == CompileScript(front + back, layouts)
    ensures back != [] ==>
      CompileScript(front + [line] + back, layouts) == ShiftResult(CompileScript(front + back, layouts), |front|)
  {
    ClassifyAllAppend(front + [line], back);
    ClassifyAllAppend(front, [line]);
    ClassifyAllAppend(front, back);
    assert ClassifyAll([line]) == [Unrecognized];
    UnrecognizedIgnored(ClassifyAll(front), ClassifyAll(back), layouts);
  }

  /** A script in which no line sets a format number (and none fails to) compiles to no slides. */
  lemma NoFormatNumberLine(lines: seq<string>, layouts: seq<Layout>)
    requires forall j :: 0 <= j < |lines| ==> !Classify(lines[j]).FormatNumber? && !Classify(lines[j]).Malformed?
    ensures CompileScript(lines, layouts) == Success([])
  {
    NoFormatNumberNoSlides(ClassifyAll(lines), layouts, |lines|);
  }
}
