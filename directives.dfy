/**
 * The line classifier of the script compiler (SlideCompile.py:110-131): every
 * script line is stripped and matched case-insensitively against the four
 * directives; a directive's payload is the stripped text after the first ':'.
 */
module Directives {
  import opened Wrappers
  import opened Text

  /** Why a format-number line raises instead of setting the number. */
  datatype LineError =
    | MissingColon                   // `_, x = line.split(':', 1)` finds no ':' to unpack
    | NotAnInteger(payload: string)  // int() refuses the payload

  datatype Directive =
    | NewSlide
    | FormatNumber(value: int)
    | Title(text: string)
    | Content(text: string)
    | Malformed(error: LineError)
    | Unrecognized

  /** The stripped text after the first ':' of s, if s has one. */
  function AfterColon(s: string): (r: Option<string>)
    ensures r.None? <==> ':' !in s
    ensures r.Some? ==> Trimmed(r.value)
  {
    match Find(s, ':')
    case None => None
    case Some(i) => Some(Strip(s[i + 1..]))
  }

  /** Which branch of the classifier a lower-cased, stripped line takes, tried in the source's order. */
  datatype Keyword = NewSlideKey | FormatNumberKey | TitleKey | ContentKey | NoKey

  function KeywordOf(key: string): Keyword {
    if key == "newslide" || key == "new_slide" then NewSlideKey
    else if StartsWith(key, "formatnumber:") || StartsWith(key, "format_number") then FormatNumberKey
    else if StartsWith(key, "title:") then TitleKey
    else if StartsWith(key, "content:") then ContentKey
    else NoKey
  }

  lemma KeywordOfFormatNumber(key: string)
    requires StartsWith(key, "formatnumber:") || StartsWith(key, "format_number")
    ensures KeywordOf(key) == FormatNumberKey
  {
    assert key[0] == 'f';
  }

  lemma KeywordOfTitle(key: string)
    requires StartsWith(key, "title:")
    ensures KeywordOf(key) == TitleKey
  {
    assert key[0] == 't';
  }

  lemma KeywordOfContent(key: string)
    requires StartsWith(key, "content:")
    ensures KeywordOf(key) == ContentKey
  {
    assert key[0] == 'c';
  }

  function Classify(line: string): Directive {
    var s := Strip(line);
    var key := Lower(s);
    match KeywordOf(key)
    case NewSlideKey => NewSlide
    case FormatNumberKey =>
      (match AfterColon(s)
       case None => Malformed(MissingColon)
       case Some(payload) =>
         (match ParseInt(payload)
          case None => Malformed(NotAnInteger(payload))
          case Some(n) => FormatNumber(n)))
    case TitleKey =>
      (match AfterColon(s)
       case None => Malformed(MissingColon)
       case Some(payload) => Title(payload))
    case ContentKey =>
      (match AfterColon(s)
       case None => Malformed(MissingColon)
       case Some(payload) => Content(payload))
    case NoKey => Unrecognized
  }

  lemma ClassifyNewSlide(line: string)
    ensures Classify(line) == NewSlide <==> KeywordOf(Lower(Strip(line))) == NewSlideKey
  {
  }

  /** `NewSlide` / `new_slide` are recognised only as the whole stripped line, in any case. */
  lemma NewSlideIsWholeLine(line: string)
    ensures Classify(line) == NewSlide <==> Lower(Strip(line)) in {"newslide", "new_slide"}
  {
    var key := Lower(Strip(line));
    ClassifyNewSlide(line);
    assert KeywordOf(key) == NewSlideKey <==> key in {"newslide", "new_slide"};
  }

  /** Two directives that agree once every text in them is lower-cased. */
  predicate SameUpToCase(d: Directive, e: Directive) {
    match d
    case NewSlide => e == NewSlide
    case FormatNumber(n) => e == FormatNumber(n)
    case Title(t) => e.Title? && Lower(e.text) == Lower(t)
    case Content(t) => e.Content? && Lower(e.text) == Lower(t)
    case Malformed(MissingColon) => e == Malformed(MissingColon)
    case Malformed(NotAnInteger(p)) => e.Malformed? && e.error.NotAnInteger? && Lower(e.error.payload) == Lower(p)
    case Unrecognized => e == Unrecognized
  }

  lemma AfterColonSameCase(s: string, t: string)
    requires Lower(s) == Lower(t)
    ensures AfterColon(s).Some? <==> AfterColon(t).Some?
    ensures AfterColon(s).Some? ==> Lower(AfterColon(s).value) == Lower(AfterColon(t).value)
  {
    assert |s| == |t|;
    forall k | 0 <= k < |s|
      ensures s[k] == ':' <==> t[k] == ':'
    {
      assert LowerChar(s[k]) == Lower(s)[k] == Lower(t)[k] == LowerChar(t[k]);
    }
    match Find(s, ':')
    case None =>
      assert ':' !in t;
    case Some(i) =>
      var j := Find(t, ':').value;
      assert j == i;
      LowerDrop(s, i + 1);
      LowerDrop(t, i + 1);
      StripSameCase(s[i + 1..], t[i + 1..]);
  }

  /** Classification is case-insensitive: lines equal up to case give the same directive up to case. */
  lemma ClassifyIgnoresCase(a: string, b: string)
    requires Lower(Strip(a)) == Lower(Strip(b))
    ensures SameUpToCase(Classify(a), Classify(b))
  {
    var s, t := Strip(a), Strip(b);
    AfterColonSameCase(s, t);
    var key := KeywordOf(Lower(s));
    assert KeywordOf(Lower(t)) == key;
    match key
    case FormatNumberKey =>
      if AfterColon(s).Some? {
        ParseIntSameCase(AfterColon(s).value, AfterColon(t).value);
      }
    case _ =>
  }

  /** A blank line matches no directive. */
  lemma BlankIsUnrecognized(line: string)
    requires AllSpace(line)
    ensures Classify(line) == Unrecognized
  {
    assert line + [] + [] == line;
    StripOf(line, [], []);
  }

  lemma LowerHasNoColon(key: string, word: string)
    requires Lower(key) == word && ':' !in word
    ensures ':' !in key
  {
    forall k | 0 <= k < |key|
      ensures key[k] != ':'
    {
      assert word[k] == LowerChar(key[k]) && word[k] in word;
    }
  }

  /** The parts of `key + ":" + rest`: the first colon is the one after key. */
  lemma SplitAtFirstColon(key: string, rest: string)
    requires ':' !in key
    ensures AfterColon(key + ":" + rest) == Some(Strip(rest))
    ensures Lower(key + ":" + rest) == Lower(key) + ":" + Lower(rest)
  {
    var s := key + ":" + rest;
    FindFirst(key, ':', rest);
    assert s[|key| + 1..] == rest;
    LowerConcat(key, ":");
    LowerConcat(key + ":", rest);
    assert Lower(":") == ":";
  }

  /** The classifier's branch and payload, given for the stripped line. */
  lemma ClassifyByParts(line: string)
    ensures var s := Strip(line);
      && (KeywordOf(Lower(s)) == TitleKey && AfterColon(s).Some? ==> Classify(line) == Title(AfterColon(s).value))
      && (KeywordOf(Lower(s)) == ContentKey && AfterColon(s).Some? ==> Classify(line) == Content(AfterColon(s).value))
      && (KeywordOf(Lower(s)) == FormatNumberKey && AfterColon(s).Some? && ParseInt(AfterColon(s).value).Some?
          ==> Classify(line) == FormatNumber(ParseInt(AfterColon(s).value).value))
      && (KeywordOf(Lower(s)) == FormatNumberKey && AfterColon(s).Some? && ParseInt(AfterColon(s).value).None?
          ==> Classify(line) == Malformed(NotAnInteger(AfterColon(s).value)))
  {
  }

  /** The keyword and payload of `key:rest` when key lower-cases to a directive word. */
  lemma WordParts(s: string, key: string, rest: string, word: string)
    requires s == key + ":" + rest
    requires Lower(key) == word && ':' !in word
    ensures AfterColon(s) == Some(Strip(rest))
    ensures StartsWith(Lower(s), word + ":")
  {
    LowerHasNoColon(key, word);
    SplitAtFirstColon(key, rest);
    var lowered := Lower(s);
    assert lowered[..|word| + 1] == word + ":";
    StartsWithSlice(lowered, word + ":");
  }

  /** The directive words with their colon. */
  lemma WordsWithColon()
    ensures "title" + ":" == "title:"
    ensures "content" + ":" == "content:"
    ensures "formatnumber" + ":" == "formatnumber:"
  {
  }

  /** The branch a lower-cased, stripped line takes, from the keyword prefixes it starts with. */
  lemma KeywordOfCases(key: string)
    ensures KeywordOf(key) == NoKey <==>
      !(|| key in {"newslide", "new_slide"}
        || StartsWith(key, "formatnumber:") || StartsWith(key, "format_number")
        || StartsWith(key, "title:") || StartsWith(key, "content:"))
    ensures KeywordOf(key) == TitleKey ==> StartsWith(key, "title:")
    ensures KeywordOf(key) == ContentKey ==> StartsWith(key, "content:")
    ensures KeywordOf(key) == FormatNumberKey ==> StartsWith(key, "formatnumber:") || StartsWith(key, "format_number")
  {
  }

  /** Lower-casing makes no colons: a line whose lower-cased form starts `word:` has that colon itself. */
  lemma ColonSurvivesLower(s: string, word: string)
    requires StartsWith(Lower(s), word + ":")
    ensures ':' in s
  {
    StartsWithSlice(Lower(s), word + ":");
    assert Lower(s)[|word|] == (word + ":")[|word|] == ':';
    assert LowerChar(s[|word|]) == ':';
    assert s[|word|] == ':';
  }

  /**
   * The converse of the payload lemmas: each directive comes only from its own
   * keyword form, carrying the stripped text after the first colon, and a line
   * is unrecognised exactly when it starts with no keyword. A `title:` or
   * `content:` line always has its colon, so only format-number lines are malformed.
   */
  lemma ClassifyKeywords(line: string)
    ensures var key := Lower(Strip(line));
      Classify(line) == Unrecognized <==>
        !(|| key in {"newslide", "new_slide"}
          || StartsWith(key, "formatnumber:") || StartsWith(key, "format_number")
          || StartsWith(key, "title:") || StartsWith(key, "content:"))
    ensures Classify(line).Title? ==>
      StartsWith(Lower(Strip(line)), "title:") && AfterColon(Strip(line)) == Some(Classify(line).text)
    ensures Classify(line).Content? ==>
      StartsWith(Lower(Strip(line)), "content:") && AfterColon(Strip(line)) == Some(Classify(line).text)
    ensures Classify(line).FormatNumber? ==>
      && (StartsWith(Lower(Strip(line)), "formatnumber:") || StartsWith(Lower(Strip(line)), "format_number"))
      && AfterColon(Strip(line)).Some?
      && ParseInt(AfterColon(Strip(line)).value) == Some(Classify(line).value)
    ensures Classify(line).Malformed? ==>
      StartsWith(Lower(Strip(line)), "formatnumber:") || StartsWith(Lower(Strip(line)), "format_number")
  {
    var s := Strip(line);
    KeywordOfCases(Lower(s));
    match KeywordOf(Lower(s))
    case TitleKey =>
      WordsWithColon();
      ColonSurvivesLower(s, "title");
    case ContentKey =>
      WordsWithColon();
      ColonSurvivesLower(s, "content");
    case _ =>
  }

  /**
   * A `title:` line (the keyword in any case) carries everything after its first
   * colon, stripped; later colons stay in the title.
   */
  lemma TitlePayload(line: string, key: string, rest: string)
    requires Strip(line) == key + ":" + rest
    requires Lower(key) == "title"
    ensures Classify(line) == Title(Strip(rest))
  {
    WordParts(Strip(line), key, rest, "title");
    WordsWithColon();
    KeywordOfTitle(Lower(Strip(line)));
    ClassifyByParts(line);
  }

  /** What follows the colon is cut from s, so it holds no character s lacks. */
  lemma AfterColonWithin(s: string, c: char)
    requires AfterColon(s).Some? && c !in s
    ensures c !in AfterColon(s).value
  {
    var i := Find(s, ':').value;
    assert c !in s[i + 1..];
    StripKeepsOut(s[i + 1..], c);
  }

  /** A `Content:` payload is cut from the stripped line, so it holds no character the line lacks. */
  lemma ContentTextWithin(line: string, c: char)
    requires Classify(line).Content? && c !in Strip(line)
    ensures c !in Classify(line).text
  {
    var s := Strip(line);
    assert AfterColon(s).Some? && Classify(line).text == AfterColon(s).value;
    AfterColonWithin(s, c);
  }

  /** The same for `content:` lines. */
  lemma ContentPayload(line: string, key: string, rest: string)
    requires Strip(line) == key + ":" + rest
    requires Lower(key) == "content"
    ensures Classify(line) == Content(Strip(rest))
  {
    WordParts(Strip(line), key, rest, "content");
    WordsWithColon();
    KeywordOfContent(Lower(Strip(line)));
    ClassifyByParts(line);
  }

  /**
   * A format-number line (`formatnumber:` or anything starting `format_number`)
   * sets the number that int() reads from the stripped text after the first colon,
   * and is an error when int() refuses that text.
   */
  lemma FormatNumberPayload(line: string, key: string, rest: string)
    requires Strip(line) == key + ":" + rest
    requires ':' !in key
    requires Lower(key) == "formatnumber" || StartsWith(Lower(key), "format_number")
    ensures ParseInt(Strip(rest)).Some? ==> Classify(line) == FormatNumber(ParseInt(Strip(rest)).value)
    ensures ParseInt(Strip(rest)).None? ==> Classify(line) == Malformed(NotAnInteger(Strip(rest)))
  {
    FormatParts(Strip(line), key, rest);
    ClassifyByParts(line);
  }

  /** The keyword and payload of `key:rest` when key is a format-number keyword. */
  lemma FormatParts(s: string, key: string, rest: string)
    requires s == key + ":" + rest
    requires ':' !in key
    requires Lower(key) == "formatnumber" || StartsWith(Lower(key), "format_number")
    ensures AfterColon(s) == Some(Strip(rest))
    ensures KeywordOf(Lower(s)) == FormatNumberKey
  {
    SplitAtFirstColon(key, rest);
    var lowered := Lower(s);
    assert lowered[..|key| + 1] == Lower(key) + ":";
    if Lower(key) == "formatnumber" {
      assert lowered[..13] == "formatnumber:";
      StartsWithSlice(lowered, "formatnumber:");
    } else {
      StartsWithSlice(Lower(key), "format_number");
      assert lowered[..13] == Lower(key)[..13];
      StartsWithSlice(lowered, "format_number");
    }
    KeywordOfFormatNumber(lowered);
  }

  /** A `format_number` line without any colon raises (the unpacking of split fails). */
  lemma FormatNumberWithoutColon(line: string)
    requires StartsWith(Lower(Strip(line)), "format_number")
    requires ':' !in line
    ensures Classify(line) == Malformed(MissingColon)
  {
    KeywordOfFormatNumber(Lower(Strip(line)));
  }
}
