# SlideCompile in Dafny

SlideCompile is a small editor that compiles a plain-text slide script into a
PowerPoint deck. This project models its compiler: the `compile` loop of
`SlideCompile.py` and the `add_slide` commit it calls.

Each script line is stripped and classified case-insensitively:
- `NewSlide` or `new_slide` as the whole line;
- `FormatNumber:` or anything starting `format_number`;
- `Title:`;
- `Content:`;
- anything else, which is ignored.

The payload of a directive is the stripped text after the first colon.

The loop keeps one pending slide, the `current_slide_data` dict. It holds a format number, which starts at the sentinel -1, a title and newline-terminated content. On each line:
- A format-number line overwrites the format number.
- A title line overwrites the title.
- A content line appends its payload and a newline.
- A NewSlide line commits the pending slide when a format number is set, then clears the content only. The format number and the title carry over.

The end of the script commits once more under the same condition.

A commit selects `slide_layouts[format_number - 1]`, with Python's indexing, so 0 and negative numbers count from the end. It then sets the title when there is one, and, when there is content, adds one paragraph per piece of `content.split('\n')`; empty content adds no paragraph.

The first error aborts the compile, and nothing is saved. There are two kinds:
- an exception on a format-number line: no colon, or a payload `int()` refuses;
- a failure inside `add_slide`: no such layout, no title placeholder, or no body placeholder.

Modules:
- `Text` (text.dfy) models the Python string operations the compiler uses:
  - `str.isspace`, `str.strip`, `str.lower` and `str.startswith`;
  - the first-colon split;
  - `str.split('\n')`;
  - `int()`.
- `Directives` (directives.dfy) is the line classifier.
- `Slides` (slides.dfy) has three parts:
  - the layout table of the template;
  - the commit specification `Commit`;
  - the `Presentation` class, whose `AddSlide` method appends to its `slides` field.
- `Compiler` (compiler.dfy) holds three things:
  - the loop as a specification, `Step` folded by `StateAfter` and closed by `Finish`;
  - `CompileScript` for raw lines;
  - the imperative `Compile` method, proved equal to it.
- `CompilerProperties` (properties.dfy) states the loop's behaviour against reference definitions that read the classified script directly: the last format number, the last title, the directives since the last NewSlide, the commit points, and the slides committed at each NewSlide (`CommittedSlides`).
- `ClassifyCases` and `CompileCases` work through concrete lines and small scripts.

The presentation template is a parameter: a sequence of layouts, each saying whether its slides have a title placeholder and a body placeholder (placeholder 1).

Two behaviours of the code are easy to miss:
- A script that ends with `NewSlide` yields an extra slide. NewSlide keeps the format number and the title, so the end of the script commits them again as a slide with no paragraphs (`TrailingNewSlideRepeats`, `TrailingNewSlideRepeatsSlide`).
- A line that matches no directive is ignored, not rejected.

## Model

| member | source | states |
|---|---|---|
| Text.IsSpace | SlideCompile.py:110 | Python's `str.isspace()` character set: ASCII tab to carriage return, the four separators 0x1c-0x1f, space and the Unicode spaces; used by Strip, whose contract and StripOf pin it |
| Text.Strip | SlideCompile.py:110 | the stripped line is no longer than the line and has no white space at either end |
| Text.StripOf | SlideCompile.py:110 | stripping white space around a trimmed text gives exactly that text |
| Text.StripTrimmed | SlideCompile.py:110 | a line with no white space at its ends strips to itself |
| Text.StripKeepsOut | SlideCompile.py:110 | stripping never introduces a character |
| Text.StripSameCase | SlideCompile.py:115 | lines equal up to case stay equal up to case after stripping |
| Text.LowerChar | SlideCompile.py:115 | ASCII upper-case letters map to lower case, every other character to itself; LowerFixesNonLetter states that only letters can fold onto one another |
| Text.Lower | SlideCompile.py:115 | `str.lower()` as ASCII folding: the model keeps the length and folds character by character with LowerChar (LowerConcat and LowerDrop state it commutes with concatenation and with dropping a prefix); Python's length-changing and context-dependent mappings are not modelled |
| Text.StartsWithSlice | SlideCompile.py:121 | startswith holds exactly when the prefix is the line's leading slice |
| Text.Find | SlideCompile.py:122 | the colon found is the first one, and none is found exactly when the line has none |
| Text.Split | SlideCompile.py:84 | split gives at least one piece, no piece holds the separator, and joining the pieces gives back the string |
| Text.Join | SlideCompile.py:84 | the pieces joined by the separator; the reference Split is proved against in both directions (Split, SplitJoin) |
| Text.SplitJoin | SlideCompile.py:84 | splitting the join of separator-free pieces gives back the pieces |
| Text.ParseInt | SlideCompile.py:123 | int() accepts a text exactly when it is an optional sign followed by ASCII digits with single underscores between digits; a negative result needs a minus sign |
| Text.ParseIntToString | SlideCompile.py:123 | int(str(n)) == n for every integer |
| Text.ParseIntDigits | SlideCompile.py:123 | int() reads a digit string, unsigned, with `+` or with `-`, as its base-10 value |
| Text.LeadingZero | SlideCompile.py:123 | a leading zero leaves the value unchanged: int("0" + d) == int(d) |
| Text.UnderscoreIgnored | SlideCompile.py:123 | an underscore between two digit strings leaves the value unchanged: int(a + "_" + b) == int(a + b) |
| Text.ParseIntSpellings | SlideCompile.py:123 | int("+" + str(n)) == n and int("0" + str(n)) == n for every n >= 0 |
| Text.ParseIntSameCase | SlideCompile.py:123 | int() gives the same result for texts equal up to case |
| Directives.AfterColon | SlideCompile.py:122-129 | there is a payload exactly when the line has a colon, and the payload is stripped |
| Directives.KeywordOf | SlideCompile.py:115-127 | the branch a lower-cased stripped line takes, tried in the source's order; KeywordOfCases states each branch's prefix, both ways for the fall-through |
| Directives.KeywordOfCases | SlideCompile.py:115-131 | a line takes no branch exactly when it is neither newslide nor new_slide and starts with none of the four keyword prefixes; each other branch implies its prefix |
| Directives.Classify | SlideCompile.py:110-131 | a line's directive; pinned by the payload lemmas (keyword form gives directive) and by ClassifyKeywords (directive comes only from its keyword form) |
| Directives.ClassifyKeywords | SlideCompile.py:110-131 | a line is unrecognised exactly when it starts with no keyword; Title, Content and FormatNumber arise only from their keyword, with the text after the first colon; only format-number lines are malformed |
| Directives.KeywordOfFormatNumber | SlideCompile.py:121 | a line starting `formatnumber:` or `format_number` takes the format-number branch |
| Directives.KeywordOfTitle | SlideCompile.py:124 | a line starting `title:` takes the title branch |
| Directives.KeywordOfContent | SlideCompile.py:127 | a line starting `content:` takes the content branch |
| Directives.NewSlideIsWholeLine | SlideCompile.py:115 | a line is NewSlide exactly when its stripped, lower-cased text is `newslide` or `new_slide` |
| Directives.ClassifyIgnoresCase | SlideCompile.py:110-131 | lines equal up to case once stripped classify to the same directive up to case |
| Directives.BlankIsUnrecognized | SlideCompile.py:110-131 | a blank line matches no directive |
| Directives.TitlePayload | SlideCompile.py:124-126 | a `title:` line, keyword in any case, sets the title to the stripped text after its first colon |
| Directives.ContentPayload | SlideCompile.py:127-129 | a `content:` line carries the stripped text after its first colon |
| Directives.FormatNumberPayload | SlideCompile.py:121-123 | a format-number line sets int() of the stripped payload, or raises when int() refuses it |
| Directives.FormatNumberWithoutColon | SlideCompile.py:121-122 | a `format_number` line without a colon raises |
| Directives.ContentTextWithin | SlideCompile.py:127-129 | a content payload holds no character that the stripped line lacks |
| ClassifyCases.MixedCaseFormatNumber | SlideCompile.py:121-123 | `FoRmAt_NuMbEr: 3` sets format number 3 |
| ClassifyCases.CompactFormatNumber | SlideCompile.py:121-123 | `FormatNumber:3` sets format number 3 |
| ClassifyCases.LaterColonsStayInPayload | SlideCompile.py:124-126 | `Title: a: b` is titled `a: b` |
| ClassifyCases.FormatNumberMissingColon | SlideCompile.py:121-122 | `format_number 3` raises for want of a colon |
| ClassifyCases.FormatNumberNotNumeric | SlideCompile.py:123 | `FormatNumber: three` raises, naming the payload `three` |
| Slides.LayoutIndex | SlideCompile.py:77 | a layout exists exactly for format numbers from 1 - count to count, and it is `(n - 1) mod count` |
| Slides.Bullets | SlideCompile.py:83-84 | no content gives no paragraphs; otherwise the paragraphs hold no newline and join back to the content, so by SplitJoin they are exactly `content.split('\n')` |
| Slides.Commit | SlideCompile.py:75-93 | add_slide's outcome: no such layout, then a title without a title placeholder, then content without placeholder 1, else the slide; CommitFields and AddSlide state it |
| Slides.Abandoned | SlideCompile.py:78-81 | the slide a failed add_slide leaves behind: none when the layout is missing, else the added slide, titled when the title was set before the failure; AddSlide's failure ensures use it |
| Slides.ContentOfIsJoin | SlideCompile.py:129 | newline-terminated content is the payloads joined by newlines, with an empty last piece |
| Slides.BulletsOfContent | SlideCompile.py:83-89 | the paragraphs of accumulated content are the payloads in order plus one empty paragraph, or none for no content |
| Slides.CommitFields | SlideCompile.py:75-93 | a successful commit uses the selected layout, keeps the title and splits the content |
| Slides.CommittedSlide | SlideCompile.py:75-93 | a committed slide has one paragraph per content payload, in order, then an empty one |
| Slides.Presentation.constructor | SlideCompile.py:105 | a new presentation has the template's layouts and no slides |
| Slides.Presentation.AddSlide | SlideCompile.py:75-93 | succeeds exactly when the commit specification does and appends its slide; otherwise reports the failure and keeps the partly built slide |
| Compiler.CommitPending | SlideCompile.py:116-119 | commit when the format number is set (also used at 133-136): unchanged when the format number is the sentinel -1 (any other value, negative ones included, commits), a stop on failure, one more slide on success; NewSlideCommits and EndCommits state it against the reference definitions |
| Compiler.Step | SlideCompile.py:115-131 | one loop iteration; its effect is stated by FormatIsLastWritten, TitleIsLastWritten, PendingContentSnoc, NewSlideCommits, OtherLinesKeepDeck (only NewSlide touches the deck) and MalformedAborts |
| Compiler.StateAfter | SlideCompile.py:109-131 | the state after the first k lines, one Step per line; DeckIsCommitted pins its deck to the slides committed so far, in order, and SamePrefixSameState, StoppedStays and the last-written lemmas state the rest |
| Compiler.Finish | SlideCompile.py:133-136 | the final commit after the loop, reported against the last line; EndCommits states it |
| Compiler.Run | SlideCompile.py:109-136 | the deck a classified script compiles to, or its first error; EndCommits states it is the slides committed at each NewSlide, in order, plus the final commit, EarlierSlidesKept that earlier slides reach it unchanged, and SlideCount, FailFast and UnrecognizedIgnored state the rest |
| Compiler.CompileScript | SlideCompile.py:100-136 | the outcome for the file's lines, each classified; Compile is proved equal to it, and UnrecognizedLineIgnored and NoFormatNumberLine state it |
| Compiler.StoppedStays | SlideCompile.py:117-119 | after an error, later lines change nothing |
| Compiler.Compile | SlideCompile.py:102-136 | the loop returns exactly what the line-by-line specification of the script gives |
| CompilerProperties.FormatIsLastWritten | SlideCompile.py:121-123 | the pending format number is the last one written, across slides |
| CompilerProperties.TitleIsLastWritten | SlideCompile.py:124-126 | the pending title is the last one written, carried over to later slides |
| CompilerProperties.ContentIsCurrentSlide | SlideCompile.py:120-129 | the pending content is the content payloads since the last NewSlide, in order, each followed by a newline |
| CompilerProperties.PendingContentSnoc | SlideCompile.py:120-129 | one more directive changes the pending content exactly as one loop step does |
| CompilerProperties.DeckCountsCommits | SlideCompile.py:115-120 | the deck holds one slide per NewSlide met while a format number was set |
| CompilerProperties.DeckIsCommitted | SlideCompile.py:115-120 | the deck after k lines is exactly CommittedSlides of those lines: the slides committed at each NewSlide, in order, from the last format number, the last title and the content since the previous NewSlide |
| CompilerProperties.OtherLinesKeepDeck | SlideCompile.py:120-131 | FormatNumber, Title, Content and unrecognised lines leave the deck as it was |
| CompilerProperties.CommittedSlidesGrow | SlideCompile.py:115-120 | slides once committed are never changed or removed: a shorter prefix commits a prefix of the slides |
| CompilerProperties.EarlierSlidesKept | SlideCompile.py:109-136 | on a successful compile, the deck after any number of lines is a prefix of the result |
| CompilerProperties.TrailingUnrecognized | SlideCompile.py:130-131 | an unrecognised last line leaves the state after the loop as it was |
| CompilerProperties.NewSlideCommits | SlideCompile.py:115-120 | a NewSlide commits exactly when a format number is set, from the last format number, the last title and the current content; it stops at a failing commit and resets only the content |
| CompilerProperties.EndCommits | SlideCompile.py:133-136 | the deck before the end is CommittedSlides; the end of the script commits once more under the same condition, reported at the last line, so a successful compile is CommittedSlides plus the final slide |
| CompilerProperties.SlideCount | SlideCompile.py:115-136 | the number of slides is the commit points plus one when a format number is set at the end |
| CompilerProperties.NoFormatNumberNoSlides | SlideCompile.py:116 | without a format number nothing is committed, and the script compiles to no slides |
| CompilerProperties.SamePrefixSameState | SlideCompile.py:109-131 | the state after k lines depends on those k lines only |
| CompilerProperties.FailFast | SlideCompile.py:118-119 | once a prefix has failed, the whole script fails with that error |
| CompilerProperties.MalformedAborts | SlideCompile.py:121-123 | a malformed format-number line aborts the compile: nothing after it runs and nothing is saved; the error is tagged with that line (a tag the program itself does not report) |
| CompilerProperties.StoppedWithin | SlideCompile.py:109-119 | an error met in the first k lines is reported against one of them |
| CompilerProperties.UnrecognizedIgnored | SlideCompile.py:130-136 | inserting an unrecognised directive keeps the outcome; errors after it move down one line; appended at the end, it keeps an error met within the script, but a failing final commit moves to the appended line |
| CompilerProperties.TrailingNewSlideRepeats | SlideCompile.py:115-136 | a script ending with NewSlide ends with an extra slide in the same layout and title and with no paragraphs |
| CompilerProperties.CommittedParagraphs | SlideCompile.py:115-120 | a slide committed at NewSlide has the last format number's layout, the last title, and the content payloads since the last NewSlide as paragraphs, then an empty one |
| CompilerProperties.OneLineScript | SlideCompile.py:100-110 | lines that hold no newline once stripped give content payloads without newlines |
| CompilerProperties.UnrecognizedLineIgnored | SlideCompile.py:130-131 | inserting a line that matches no directive, blank lines among them, keeps the compiled deck |
| CompilerProperties.NoFormatNumberLine | SlideCompile.py:133-136 | a script with no format-number line compiles to an empty deck |
| CompileCases.TrailingNewSlideRepeatsSlide | SlideCompile.py:115-136 | a titled two-bullet slide closed by NewSlide compiles to that slide, with bullets `a`, `b`, `""`, plus an empty repeat |
| CompileCases.MinusOneDropsSlide | SlideCompile.py:102-136 | `FormatNumber: -1` equals the unset sentinel, so its slide is never committed |
| CompileCases.ZeroSelectsLastLayout | SlideCompile.py:77 | format number 0 selects the template's last layout |
| CompileCases.MissingLayoutAborts | SlideCompile.py:116-119 | a format number past the last layout aborts at the NewSlide that commits it, with that line's number |

## Left out

- The editor around the compiler is not modelled: the Tk window, the open/save/save-as file handling, and the save and key bindings. The compiler's own `save_file` call, the file reading and the final save dialog are I/O too. The model starts from the list of lines and ends with the deck that would be saved.
- The `print` calls and the unused `left`/`top` positions are left out, since they affect nothing.
- The text of the error dialog is not modelled. An error is a reason and the number of the line it arose at.
- BadLine: its line number is the model's own addition. A malformed format-number line raises an uncaught `ValueError` (SlideCompile.py:122-123); the program shows no dialog and reports no script line for it. Only add_slide's handler reports a line (SlideCompile.py:91).
- python-pptx is abstracted to a list of layouts with title and body placeholder flags. Shapes, text frames, a template's default first paragraph and the saved file format are not modelled.
- Text.LowerChar: `str.lower()` is modelled for ASCII letters only. No non-ASCII lower-case form can complete one of the keywords, but payload texts are compared by this ASCII folding only.
- Text.Lower: folds one character to one character with LowerChar, so its result always has the input's length. Python's non-ASCII mappings, the ones that change the length (`İ` lowers to two characters) and the context-dependent final sigma are not modelled.
- Text.ParseInt: accepts ASCII digits only. Unicode decimal digits and the limit on the number of digits are not modelled.
- Directives.Classify: the no-colon branch of `Title:` and `Content:` lines cannot be taken, because the keyword itself contains the colon. It is modelled as an error, and ClassifyKeywords proves it is never taken.
- CompileCases.MinusOneDropsSlide: a format number of -1 cannot be told apart from "no format number". The slide is silently dropped, as in the code.
- Exceptions other than those named are out of scope: I/O errors, and python-pptx errors beyond the missing layout and placeholders.
