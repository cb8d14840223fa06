/**
 * Worked inputs of the explanation parser: a sample explanation (a title line,
 * two `* ` bullets, two trailing empty lines) and its edge cases.
 */
module ImageCanvasExamples {
  import opened Wrappers
  import opened JsString
  import opened ImageCanvas

  /** A title line and two bullet lines. */
  lemma ParseExampleLines()
    ensures ParseExplanation(Join(["Mnemonic Title", "* point one", "* point two"])) ==
            Some(Explanation("Mnemonic Title", ["point one", "point two"]))
  {
    var e := Explanation("Mnemonic Title", ["point one", "point two"]);
    assert [e.title] + Bullets(e.points) == ["Mnemonic Title", "* point one", "* point two"] by {
      var bullets := Bullets(e.points);
      assert bullets[0] == "* point one" && bullets[1] == "* point two";
    }
    assert !IsBlank(e.title) by { assert e.title[0] == 'M'; }
    assert NoNewlines(e.points);
    ParseBullets(e);
  }

  /**
   * The sample explanation written as the join of its five lines: the two trailing
   * empty lines are dropped.
   */
  lemma ParseExample()
    ensures ParseExplanation(Join(["Mnemonic Title", "* point one", "* point two", "", ""])) ==
            Some(Explanation("Mnemonic Title", ["point one", "point two"]))
  {
    var lines := ["Mnemonic Title", "* point one", "* point two"];
    var t := Join(lines);
    ParseExampleLines();
    assert IsBlank("");
    ParseAppendLine(t, "");
    assert ParseExplanation(t + "\n" + "") == ParseExplanation(t);
    ParseAppendLine(t + "\n" + "", "");
    assert ParseExplanation(t + "\n" + "" + "\n" + "") == ParseExplanation(t);
    assert Join(["Mnemonic Title", "* point one", "* point two", "", ""]) == t + "\n" + "" + "\n" + "" by {
      JoinAppend(lines, "");
      JoinAppend(lines + [""], "");
      assert lines + [""] + [""] == ["Mnemonic Title", "* point one", "* point two", "", ""];
    }
  }

  /** The sample explanation as the renderer receives it, one string with its newlines. */
  lemma ParseExampleText()
    ensures ParseExplanation("Mnemonic Title\n* point one\n* point two\n\n") ==
            Some(Explanation("Mnemonic Title", ["point one", "point two"]))
  {
    SampleJoin();
    ParseExample();
  }

  /** The five lines of the sample explanation, joined, are its text. */
  lemma SampleJoin()
    ensures Join(["Mnemonic Title", "* point one", "* point two", "", ""]) ==
            "Mnemonic Title\n* point one\n* point two\n\n"
  {
  }

  /** The empty text and texts of whitespace-only lines give nothing. */
  lemma ParseBlankTexts()
    ensures ParseExplanation("").None? && ParseExplanation("\n\n").None?
    ensures ParseExplanation(" \n\t").None?
  {
    ParseNoneIffBlank("");
    ParseNoneIffBlank("\n\n");
    ParseNoneIffBlank(" \n\t");
  }

  /** Blank lines are dropped before markers are stripped, so a point can be whitespace-only. */
  lemma ParseWhitespacePoint()
    ensures ParseExplanation("T\n*  ") == Some(Explanation("T", [" "]))
  {
    assert !IsBlank("T") && !IsBlank("*  ") by { assert "T"[0] == 'T' && "*  "[0] == '*'; }
    ParseSingleLine("T");
    ParseAppendLine("T", "*  ");
    assert [] + [StripMarker("*  ")] == [" "];
    assert "T" + "\n" + "*  " == "T\n*  ";
  }

  /** The title keeps a leading marker. */
  lemma ParseMarkedTitle()
    ensures ParseExplanation("* T") == Some(Explanation("* T", []))
  {
    assert !IsBlank("* T") by { assert "* T"[0] == '*'; }
    ParseSingleLine("* T");
  }

  /** Exactly one anchored marker is removed: a second one stays, an indented one is not a marker. */
  lemma StripMarkerExamples()
    ensures StripMarker("* * a") == "* a" && StripMarker("  * a") == "  * a"
  {
    assert HasMarker("* * a");
    assert "  * a"[..2][0] == ' ';
  }
}
