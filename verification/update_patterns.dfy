/**
 * The mock pattern-update script: a context provider and an update
 * generator that both return fixed text, and the rule that appends a dated
 * "Automated Update" section to a markdown document unless the update text
 * already occurs in it.
 *
 * The document file is the `content` field of a `Document`; the current
 * calendar date is a parameter `today` (already formatted as the script
 * formats it, `YYYY-MM-DD`).
 */
module UpdatePatterns {
  import opened Text

  /** The four lines of the advisory text, without their line breaks. */
  const NIST_LINE := "- Incorporate the 2024 NIST auditing guidance for RAG systems."
  const CSA_LINE := "- Reference Cloud Security Alliance best practices on data protection."
  const INCIDENT_LINE := "- Review incident response procedures to include monitoring for RAG-specific threats."
  const MOCK_NOTE := "(Mocked update generated from prompt)"
  const ADVISORY_LINES: seq<string> := [NIST_LINE, CSA_LINE, INCIDENT_LINE, MOCK_NOTE]

  /** Lines joined by single line breaks, with no break after the last one. */
  function JoinLines(lines: seq<string>): string {
    if |lines| == 0 then ""
    else if |lines| == 1 then lines[0]
    else lines[0] + "\n" + JoinLines(lines[1..])
  }

  lemma JoinFourLines(a: string, b: string, c: string, d: string)
    ensures JoinLines([a, b, c, d]) == a + "\n" + b + "\n" + c + "\n" + d
  {
    assert [a, b, c, d][1..] == [b, c, d];
    assert [b, c, d][1..] == [c, d];
    assert [c, d][1..] == [d];
    var cd := c + "\n" + d;
    assert JoinLines([d]) == d;
    assert JoinLines([c, d]) == cd;
    assert JoinLines([b, c, d]) == b + "\n" + cd;
    assert a + "\n" + (b + "\n" + cd) == a + "\n" + b + "\n" + cd;
    assert a + "\n" + b + "\n" + cd == a + "\n" + b + "\n" + c + "\n" + d;
  }

  /** Context provider: fixed guidance text naming its two (mock) sources. */
  function RetrieveExternalData(): (r: string)
    ensures Contains(r, "NIST")
    ensures Contains(r, "Cloud Security Alliance")
  {
    // The two sentences of the guidance text, split around the names they cite.
    var nist := "NIST";
    var csa := "Cloud Security Alliance";
    var before := nist + " released new guidelines on RAG auditing in 2024. The ";
    var after := " published best practices for data protection.";
    ContainsInMiddle(before, csa, after);
    ContainsInMiddle("", nist, before[|nist|..]);
    assert "" + nist + before[|nist|..] == before;
    ContainsExtend(before, csa, nist);
    ContainsExtend(before + csa, after, nist);
    before + csa + after
  }

  /**
   * Update generator: whatever `context` it is given, the advisory text is
   * the four advisory lines, one per line, with no line break after the last.
   */
  function GenerateLlmUpdate(context: string): (r: string)
    ensures r == JoinLines(ADVISORY_LINES)
  {
    JoinFourLines(NIST_LINE, CSA_LINE, INCIDENT_LINE, MOCK_NOTE);
    NIST_LINE + "\n" + CSA_LINE + "\n" + INCIDENT_LINE + "\n" + MOCK_NOTE
  }

  /** The generated text does not depend on the context, not even on an empty one. */
  lemma GenerateIgnoresContext(c1: string, c2: string)
    ensures GenerateLlmUpdate(c1) == GenerateLlmUpdate(c2)
    ensures GenerateLlmUpdate(c1) == GenerateLlmUpdate("")
  {
  }

  /** The text the script checks for and appends on every run. */
  function AdvisoryText(): string {
    GenerateLlmUpdate(RetrieveExternalData())
  }

  /** The heading line of a section stamped with `today`. */
  function Heading(today: string): string {
    "## Automated Update (" + today + ")"
  }

  /**
   * The section appended to the document: a blank line, the dated heading,
   * a blank line, the update text and a closing line break.
   */
  function DatedSection(today: string, updateText: string): (s: string)
    ensures |s| == |today| + |updateText| + 26
    ensures s[..|Heading(today)| + 1] == "\n" + Heading(today)
    ensures Contains(s, Heading(today))
    ensures Contains(s, updateText)
    ensures s[|s| - 1] == '\n'
  {
    var s := "\n## Automated Update (" + today + ")\n\n" + updateText + "\n";
    assert s == "\n" + Heading(today) + ("\n\n" + updateText + "\n");
    ContainsInMiddle("\n", Heading(today), "\n\n" + updateText + "\n");
    assert s == ("\n" + Heading(today) + "\n\n") + updateText + "\n";
    ContainsInMiddle("\n" + Heading(today) + "\n\n", updateText, "\n");
    s
  }

  /**
   * The append rule on the document text: unchanged when `updateText`
   * already occurs in `content`, otherwise `content` followed by the dated
   * section. The old text is always kept as a prefix, and afterwards the
   * update text always occurs in the document.
   */
  function UpdatedContent(content: string, today: string, updateText: string): (r: string)
    ensures content <= r
    ensures Contains(r, updateText)
    ensures r == content <==> Contains(content, updateText)
    ensures |r| == |content| || |r| == |content| + |DatedSection(today, updateText)|
    ensures r != content ==> r[|content|..] == DatedSection(today, updateText)
  {
    if Contains(content, updateText) then content
    else
      var section := DatedSection(today, updateText);
      assert content + section == content + section + "";
      ContainsInMiddle(content, section, "");
      ContainsTransitive(content + section, section, updateText);
      content + section
  }

  /** One run of the script never appends the section twice: a second run finds the text. */
  lemma UpdateIdempotent(content: string, day1: string, day2: string, updateText: string)
    ensures var once := UpdatedContent(content, day1, updateText);
      UpdatedContent(once, day2, updateText) == once
  {
  }

  /** When a section is appended, its heading carries the date of the run. */
  lemma {:induction false} AppendedSectionIsDated(content: string, today: string, updateText: string)
    requires !Contains(content, updateText)
    ensures Contains(UpdatedContent(content, today, updateText), Heading(today))
  {
    var section := DatedSection(today, updateText);
    assert content + section == content + section + "";
    ContainsInMiddle(content, section, "");
    ContainsTransitive(content + section, section, Heading(today));
  }

  /** The document after one run of the script on each of `days`, in order. */
  function RunOnDays(content: string, days: seq<string>, updateText: string): (r: string)
    ensures content <= r
    ensures |days| > 0 ==> Contains(r, updateText)
    decreases |days|
  {
    if |days| == 0 then content
    else RunOnDays(UpdatedContent(content, days[0], updateText), days[1..], updateText)
  }

  /**
   * However many days the script runs on, the document ends up as after the
   * first run: one section at most, dated with the first day.
   */
  lemma {:induction false} RunOnDaysAppendsOnce(content: string, days: seq<string>, updateText: string)
    requires |days| > 0
    ensures RunOnDays(content, days, updateText) == UpdatedContent(content, days[0], updateText)
    decreases |days|
  {
    var once := UpdatedContent(content, days[0], updateText);
    if |days| > 1 {
      RunOnDaysAppendsOnce(once, days[1..], updateText);
      UpdateIdempotent(content, days[0], days[1], updateText);
    }
  }

  /**
   * A document holding only a title gets exactly one dated section with the
   * advisory text after it.
   */
  lemma FreshDocumentGetsSection(today: string)
    ensures UpdatedContent("# Pattern\n", today, AdvisoryText())
      == "# Pattern\n" + "\n## Automated Update (" + today + ")\n\n" + AdvisoryText() + "\n"
  {
    var title, text := "# Pattern\n", AdvisoryText();
    assert |title| < |NIST_LINE| <= |text|;
    TooLongNotContained(title, text);
    assert UpdatedContent(title, today, text) == title + DatedSection(today, text);
  }

  /** The markdown document the script updates; `content` is the file's text. */
  class Document {
    var content: string

    constructor (initial: string)
      ensures content == initial
    {
      content := initial;
    }

    /**
     * One run of the script dated `today`: reads the text, generates the
     * advisory text and, only when that text does not occur yet, appends the
     * dated section and writes the document back. `wrote` tells whether the
     * write happened.
     */
    method AppendUpdate(today: string) returns (wrote: bool)
      modifies this
      ensures wrote <==> !Contains(old(content), AdvisoryText())
      ensures content == UpdatedContent(old(content), today, AdvisoryText())
    {
      var current := content;
      var context := RetrieveExternalData();
      var updateText := GenerateLlmUpdate(context);
      var section := DatedSection(today, updateText);
      wrote := false;
      if !Contains(current, updateText) {
        current := current + section;
        content := current;
        wrote := true;
      }
    }
  }
}
