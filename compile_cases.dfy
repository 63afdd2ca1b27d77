/**
 * Worked compiles of small classified scripts, against any template whose
 * layouts are given as a parameter. Each follows the loop of
 * SlideCompile.py:110-136 line by line.
 */
module CompileCases {
  import opened Wrappers
  import opened Directives
  import opened Slides
  import opened Compiler

  /** A titled slide with two bullets, closed by a NewSlide line. */
  function TwoBullets(title: string, a: string, b: string): seq<Directive> {
    [FormatNumber(1), Title(title), Content(a), Content(b), NewSlide]
  }

  lemma TwoBulletsContent(a: string, b: string)
    requires '\n' !in a && '\n' !in b
    ensures Bullets(a + "\n" + b + "\n") == [a, b, ""]
  {
    var texts := [a, b];
    assert texts[..1] == [a];
    assert ContentOf([a]) == a + "\n" by {
      assert [a][..0] == [];
    }
    assert ContentOf(texts) == (a + "\n") + b + "\n";
    BulletsOfContent(texts);
  }

  lemma TwoBulletsPending(title: string, a: string, b: string, layouts: seq<Layout>)
    ensures StateAfter(TwoBullets(title, a, b), layouts, 4) == Running(Pending(1, title, a + "\n" + b + "\n"), [])
  {
    var script := TwoBullets(title, a, b);
    assert StateAfter(script, layouts, 1) == Running(Pending(1, "", ""), []);
    assert StateAfter(script, layouts, 2) == Running(Pending(1, title, ""), []);
    assert StateAfter(script, layouts, 3) == Running(Pending(1, title, a + "\n"), []);
  }

  /** A NewSlide whose commit succeeds appends that slide and clears the content. */
  lemma NewSlideAppends(script: seq<Directive>, layouts: seq<Layout>, k: nat, data: Pending, deck: seq<Slide>, slide: Slide)
    requires k < |script| && script[k] == NewSlide
    requires StateAfter(script, layouts, k) == Running(data, deck)
    requires data.formatNumber != UNSET
    requires Commit(data.formatNumber, data.title, data.content, layouts) == Success(slide)
    ensures StateAfter(script, layouts, k + 1) == Running(data.(content := ""), deck + [slide])
  {
  }

  /**
   * A script that ends with NewSlide yields two slides: NewSlide resets only
   * the content, so the end of the script commits the format number and title
   * once more, as a second slide with no paragraphs.
   */
  lemma TrailingNewSlideRepeatsSlide(title: string, a: string, b: string, layouts: seq<Layout>)
    requires '\n' !in a && '\n' !in b
    requires |layouts| >= 1 && layouts[0] == Layout(true, true)
    ensures Run(TwoBullets(title, a, b), layouts) == Success([Slide(0, title, [a, b, ""]), Slide(0, title, [])])
  {
    var script := TwoBullets(title, a, b);
    var content := a + "\n" + b + "\n";
    var first := Slide(0, title, [a, b, ""]);
    TwoBulletsPending(title, a, b, layouts);
    TwoBulletsContent(a, b);
    assert LayoutIndex(1, |layouts|) == Some(0);
    assert Commit(1, title, content, layouts) == Success(first);
    NewSlideAppends(script, layouts, 4, Pending(1, title, content), [], first);
    var data := Pending(1, title, "");
    var last := Commit(1, title, "", layouts).value;
    assert last == Slide(0, title, []);
    assert CommitPending(data, [first], 5, layouts) == Running(data, [first, last]);
    assert |script| == 5 && [] + [first] == [first];
    assert StateAfter(script, layouts, 5) == Running(data, [first]);
    assert Run(script, layouts) == Finish(Running(data, [first]), 5, layouts);
  }

  /**
   * `FormatNumber: -1` stores the value that marks "no format number", so the
   * slide it describes is never committed and is silently lost.
   */
  lemma MinusOneDropsSlide(layouts: seq<Layout>)
    ensures Run([FormatNumber(-1), Title("Lost"), Content("x"), NewSlide], layouts) == Success([])
  {
    var script := [FormatNumber(-1), Title("Lost"), Content("x"), NewSlide];
    assert StateAfter(script, layouts, 1) == Running(Pending(-1, "", ""), []);
    assert StateAfter(script, layouts, 2) == Running(Pending(-1, "Lost", ""), []);
    assert StateAfter(script, layouts, 3) == Running(Pending(-1, "Lost", "x\n"), []);
    assert StateAfter(script, layouts, 4) == Running(Pending(-1, "Lost", ""), []);
  }

  /** Format number 0 indexes slide_layouts[-1]: the template's last layout. */
  lemma ZeroSelectsLastLayout(layouts: seq<Layout>)
    requires |layouts| >= 1
    ensures Run([FormatNumber(0)], layouts) == Success([Slide(|layouts| - 1, "", [])])
  {
    var data := Pending(0, "", "");
    assert StateAfter([FormatNumber(0)], layouts, 1) == Running(data, []);
    assert LayoutIndex(0, |layouts|) == Some(|layouts| - 1);
    var slide := Commit(0, "", "", layouts).value;
    assert slide == Slide(|layouts| - 1, "", []);
    assert CommitPending(data, [], 1, layouts) == Running(data, [slide]);
    assert Run([FormatNumber(0)], layouts) == Finish(Running(data, []), 1, layouts);
  }

  /** A format number past the last layout aborts at the NewSlide that commits it. */
  lemma MissingLayoutAborts(layouts: seq<Layout>)
    ensures Run([FormatNumber(|layouts| + 1), NewSlide, Title("never read")], layouts)
      == Failure(SlideFailed(2, NoSuchLayout))
  {
    var script := [FormatNumber(|layouts| + 1), NewSlide, Title("never read")];
    assert StateAfter(script, layouts, 1) == Running(Pending(|layouts| + 1, "", ""), []);
    assert LayoutIndex(|layouts| + 1, |layouts|).None?;
    assert StateAfter(script, layouts, 2) == Stopped(SlideFailed(2, NoSuchLayout));
  }
}
