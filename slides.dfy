/**
 * The commit step of the compiler, add_slide (SlideCompile.py:75-93), and the
 * presentation it appends slides to. The presentation template is abstracted as
 * the list of its slide layouts; all the commit needs to know of a layout is
 * whether slides made from it have a title placeholder and a body placeholder
 * (the placeholder with index 1).
 */
module Slides {
  import opened Wrappers
  import opened Text

  datatype Layout = Layout(hasTitle: bool, hasBody: bool)

  /** A slide as the commit leaves it: its layout's position, its title and the paragraphs added to its body. */
  datatype Slide = Slide(layout: nat, title: string, paragraphs: seq<string>)

  /** The exceptions add_slide catches and reports. */
  datatype SlideFailure =
    | NoSuchLayout        // slide_layouts[format_number - 1] is out of range
    | NoTitlePlaceholder  // a title is given but the slide has no title shape
    | NoBodyPlaceholder   // content is given but the slide has no placeholder 1

  /**
   * The layout that `slide_layouts[formatNumber - 1]` selects, with Python's
   * indexing: negative indices count from the end, so 0 selects the last layout.
   */
  function LayoutIndex(formatNumber: int, count: nat): (r: Option<nat>)
    ensures r.Some? <==> 1 - count <= formatNumber <= count
    ensures r.Some? ==> r.value < count && r.value == (formatNumber - 1) % count
  {
    var i := formatNumber - 1;
    if 0 <= i < count then Some(i)
    else if -(count as int) <= i < 0 then Some(i + count)
    else None
  }

  /** The paragraphs added for the accumulated content: none when it is empty, else content.split('\n'). */
  function Bullets(content: string): (paragraphs: seq<string>)
    ensures paragraphs == [] <==> content == ""
    ensures content != "" ==> Join(paragraphs, '\n') == content
    ensures forall k :: 0 <= k < |paragraphs| ==> '\n' !in paragraphs[k]
  {
    if content == "" then [] else Split(content, '\n')
  }

  /** What add_slide does with one pending slide: the slide it adds, or the exception it reports. */
  function Commit(formatNumber: int, title: string, content: string, layouts: seq<Layout>): Result<Slide, SlideFailure> {
    match LayoutIndex(formatNumber, |layouts|)
    case None => Failure(NoSuchLayout)
    case Some(i) =>
      if title != "" && !layouts[i].hasTitle then Failure(NoTitlePlaceholder)
      else if content != "" && !layouts[i].hasBody then Failure(NoBodyPlaceholder)
      else Success(Slide(i, title, Bullets(content)))
  }

  /**
   * The slides a failing add_slide leaves in the presentation beyond the old
   * ones: the new slide is already added when setting its title or body fails.
   */
  function Abandoned(formatNumber: int, title: string, layouts: seq<Layout>): seq<Slide> {
    match LayoutIndex(formatNumber, |layouts|)
    case None => []
    case Some(i) => if title != "" && !layouts[i].hasTitle then [Slide(i, "", [])] else [Slide(i, title, [])]
  }

  /** The content text of a sequence of `Content:` payloads: each followed by one newline, in order. */
  function ContentOf(texts: seq<string>): string {
    if texts == [] then "" else ContentOf(texts[..|texts| - 1]) + texts[|texts| - 1] + "\n"
  }

  lemma {:induction false} JoinSnoc(parts: seq<string>, last: string, sep: char)
    requires parts != []
    ensures Join(parts + [last], sep) == Join(parts, sep) + [sep] + last
    decreases |parts|
  {
    if |parts| > 1 {
      assert (parts + [last])[1..] == parts[1..] + [last];
      JoinSnoc(parts[1..], last, sep);
    }
  }

  /** Newline-terminated texts are the texts joined with newlines, plus one empty last piece. */
  lemma {:induction false} ContentOfIsJoin(texts: seq<string>)
    ensures ContentOf(texts) == Join(texts + [""], '\n')
    decreases |texts|
  {
    if texts != [] {
      var init, last := texts[..|texts| - 1], texts[|texts| - 1];
      ContentOfIsJoin(init);
      assert texts == init + [last];
      assert texts + [""] == (init + [last]) + [""];
      if init == [] {
        assert Join([last, ""], '\n') == last + "\n" + "";
      } else {
        JoinSnoc(init, last, '\n');
        JoinSnoc(init, "", '\n');
        JoinSnoc(init + [last], "", '\n');
      }
    }
  }

  /**
   * Splitting the accumulated content gives back the `Content:` payloads in input
   * order, then one empty paragraph for the final newline; no content, no paragraphs.
   */
  lemma BulletsOfContent(texts: seq<string>)
    requires forall k :: 0 <= k < |texts| ==> '\n' !in texts[k]
    ensures Bullets(ContentOf(texts)) == if texts == [] then [] else texts + [""]
  {
    ContentOfIsJoin(texts);
    if texts != [] {
      var parts := texts + [""];
      assert forall k :: 0 <= k < |parts| ==> '\n' !in parts[k] by {
        forall k | 0 <= k < |parts|
          ensures '\n' !in parts[k]
        {
          if k < |texts| {
            assert parts[k] == texts[k];
          }
        }
      }
      SplitJoin(parts, '\n');
      assert ContentOf(texts) != "" by {
        assert |ContentOf(texts)| >= 1;
      }
    }
  }

  /** A successful commit uses the layout the format number selects, keeps the title and splits the content. */
  lemma CommitFields(formatNumber: int, title: string, content: string, layouts: seq<Layout>)
    requires Commit(formatNumber, title, content, layouts).Success?
    ensures var slide := Commit(formatNumber, title, content, layouts).value;
      && 1 - |layouts| <= formatNumber <= |layouts|
      && slide.layout == (formatNumber - 1) % |layouts|
      && slide.title == title
      && slide.paragraphs == Bullets(content)
  {
  }

  /**
   * A slide committed from accumulated content uses the layout the format
   * number selects, keeps the title and has one paragraph per content line.
   */
  lemma CommittedSlide(formatNumber: int, title: string, texts: seq<string>, layouts: seq<Layout>)
    requires forall k :: 0 <= k < |texts| ==> '\n' !in texts[k]
    requires Commit(formatNumber, title, ContentOf(texts), layouts).Success?
    ensures var slide := Commit(formatNumber, title, ContentOf(texts), layouts).value;
      && 1 - |layouts| <= formatNumber <= |layouts|
      && slide.layout == (formatNumber - 1) % |layouts|
      && slide.title == title
      && slide.paragraphs == if texts == [] then [] else texts + [""]
  {
    CommitFields(formatNumber, title, ContentOf(texts), layouts);
    BulletsOfContent(texts);
  }

  /** The presentation object: the template's layouts and the slides added so far. */
  class Presentation {
    const layouts: seq<Layout>
    var slides: seq<Slide>

    constructor (layouts: seq<Layout>)
      ensures this.layouts == layouts && slides == []
    {
      this.layouts := layouts;
      slides := [];
    }

    /**
     * add_slide: add a slide in the layout the format number selects, set its
     * title when there is one, then add one paragraph per line of the content.
     * On failure the reason is returned; a slide already added stays.
     */
    method AddSlide(formatNumber: int, title: string, content: string) returns (failure: Option<SlideFailure>)
      modifies this
      ensures failure.None? <==> Commit(formatNumber, title, content, layouts).Success?
      ensures failure.Some? ==> Commit(formatNumber, title, content, layouts) == Failure(failure.value)
      ensures failure.None? ==> slides == old(slides) + [Commit(formatNumber, title, content, layouts).value]
      ensures failure.Some? ==> slides == old(slides) + Abandoned(formatNumber, title, layouts)
    {
      var index := LayoutIndex(formatNumber, |layouts|);
      if index.None? {
        return Some(NoSuchLayout);
      }
      var i := index.value;
      slides := slides + [Slide(i, "", [])];
      if title != "" {
        if !layouts[i].hasTitle {
          return Some(NoTitlePlaceholder);
        }
        slides := slides[..|slides| - 1] + [Slide(i, title, [])];
      }
      if content != "" {
        if !layouts[i].hasBody {
          return Some(NoBodyPlaceholder);
        }
        var points := Split(content, '\n');
        for j := 0 to |points|
          invariant slides == old(slides) + [Slide(i, title, points[..j])]
        {
          var last := slides[|slides| - 1];
          assert points[..j + 1] == points[..j] + [points[j]];
          slides := slides[..|slides| - 1] + [last.(paragraphs := last.paragraphs + [points[j]])];
        }
        assert points[..|points|] == points;
      }
      return None;
    }
  }
}
