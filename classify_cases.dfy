/**
 * Worked classifications of single script lines. Each literal fact sits in a
 * lemma of its own, so that the lemma putting them together stays cheap.
 */
module ClassifyCases {
  import opened Wrappers
  import opened Text
  import opened Directives

  lemma StripLeadingBlank(payload: string)
    requires Trimmed(payload)
    ensures Strip(" " + payload) == payload
  {
    assert " " + payload == " " + payload + "";
    StripOf(" ", payload, "");
  }

  lemma MixedCaseLine()
    ensures Strip("FoRmAt_NuMbEr: 3") == "FoRmAt_NuMbEr" + ":" + " 3"
  {
    StripTrimmed("FoRmAt_NuMbEr: 3");
    assert "FoRmAt_NuMbEr: 3" == "FoRmAt_NuMbEr" + ":" + " 3";
  }

  lemma CompactLine()
    ensures Strip("FormatNumber:3") == "FormatNumber" + ":" + "3"
  {
    StripTrimmed("FormatNumber:3");
    assert "FormatNumber:3" == "FormatNumber" + ":" + "3";
  }

  lemma WordyLine()
    ensures Strip("FormatNumber: three") == "FormatNumber" + ":" + " three"
  {
    var line := "FormatNumber" + ":" + " three";
    assert "FormatNumber: three" == line;
    assert line[0] == 'F' && line[|line| - 1] == 'e';
    StripTrimmed(line);
  }

  lemma TitleLine()
    ensures Strip("Title: a: b") == "Title" + ":" + " a: b"
  {
    StripTrimmed("Title: a: b");
    assert "Title: a: b" == "Title" + ":" + " a: b";
  }

  lemma MixedCaseKey()
    ensures ':' !in "FoRmAt_NuMbEr" && Lower("FoRmAt_NuMbEr") == "format_number"
  {
  }

  lemma CamelCaseKey()
    ensures ':' !in "FormatNumber" && Lower("FormatNumber") == "formatnumber"
  {
  }

  lemma TitleKey()
    ensures Lower("Title") == "title"
  {
  }

  lemma TitleText()
    ensures Strip(" a: b") == "a: b"
  {
    assert " a: b" == " " + "a: b";
    assert Trimmed("a: b");
    StripLeadingBlank("a: b");
  }

  lemma SpacedLine()
    ensures Strip("format_number 3") == "format_number 3"
    ensures ':' !in "format_number 3"
  {
    StripTrimmed("format_number 3");
  }

  lemma SpacedLineLowered()
    ensures Lower("format_number 3")[..13] == "format_number"
  {
  }

  lemma SpacedKey()
    ensures Strip("format_number 3") == "format_number 3"
    ensures StartsWith(Lower(Strip("format_number 3")), "format_number")
    ensures ':' !in "format_number 3"
  {
    SpacedLine();
    SpacedLineLowered();
    var lowered := Lower("format_number 3");
    StartsWithSlice(lowered, "format_number");
    assert Lower(Strip("format_number 3")) == lowered;
  }

  lemma Three()
    ensures Strip(" 3") == "3" && Strip("3") == "3"
    ensures ParseInt("3") == Some(3)
  {
    assert " 3" == " " + "3";
    StripLeadingBlank("3");
    StripTrimmed("3");
    assert IsDigitString("3");
    assert DigitsValue("3") == 3;
  }

  lemma ThreeInWords()
    ensures Strip(" three") == "three"
    ensures ParseInt("three").None?
  {
    assert " three" == " " + "three";
    StripLeadingBlank("three");
    assert !IsDigit('t');
  }

  /** `FoRmAt_NuMbEr: 3` sets format number 3: underscore spelling, any case. */
  lemma MixedCaseFormatNumber()
    ensures Classify("FoRmAt_NuMbEr: 3") == FormatNumber(3)
  {
    MixedCaseLine();
    MixedCaseKey();
    Three();
    FormatNumberPayload("FoRmAt_NuMbEr: 3", "FoRmAt_NuMbEr", " 3");
  }

  /** `FormatNumber:3` sets format number 3 as well. */
  lemma CompactFormatNumber()
    ensures Classify("FormatNumber:3") == FormatNumber(3)
  {
    CompactLine();
    CamelCaseKey();
    Three();
    FormatNumberPayload("FormatNumber:3", "FormatNumber", "3");
  }

  /** Only the first colon separates: `Title: a: b` is titled `a: b`. */
  lemma LaterColonsStayInPayload()
    ensures Classify("Title: a: b") == Title("a: b")
  {
    TitleLine();
    TitleKey();
    TitleText();
    TitlePayload("Title: a: b", "Title", " a: b");
  }

  /** `format_number 3` has no colon to split at. */
  lemma FormatNumberMissingColon()
    ensures Classify("format_number 3") == Malformed(MissingColon)
  {
    SpacedKey();
    FormatNumberWithoutColon("format_number 3");
  }

  /** `FormatNumber: three` is no integer. */
  lemma FormatNumberNotNumeric()
    ensures Classify("FormatNumber: three") == Malformed(NotAnInteger("three"))
  {
    WordyLine();
    CamelCaseKey();
    ThreeInWords();
    FormatNumberPayload("FormatNumber: three", "FormatNumber", " three");
  }
}
