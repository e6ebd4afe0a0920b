/** The OAuth documentation page's section renderer (app/docs/oauth/page.tsx): one pass
    over the content's lines with a small state machine. A line starting with ``` opens
    or closes a code block; lines inside a block are collected verbatim; outside code,
    lines starting with '|' are collected as table rows until the first other line, which
    flushes the table (its valid rows only) before being classified as a heading, a list
    item, a paragraph or nothing. */
module OAuthDocs {
  import opened Wrappers
  import opened Text

  /** The elements the page emits, in order. A table holds its valid rows. */
  datatype Element =
    | Code(language: string, code: string)
    | Table(rows: seq<string>)
    | H3(text: string)
    | H4(text: string)
    | Li(text: string)
    | P(text: string)

  /** The renderer's variables between two lines. */
  datatype State = State(inCodeBlock: bool, inTable: bool, currentCode: string, currentLanguage: string,
                         tableRows: seq<string>, elements: seq<Element>)

  const Start := State(false, false, "", "text", [], [])

  /** \w: ASCII letters, digits and '_'. */
  predicate IsWordChar(c: char)
  {
    'a' <= c <= 'z' || 'A' <= c <= 'Z' || '0' <= c <= '9' || c == '_'
  }

  /** The capture of the first match of /```(\w+)/ in `s`: the regular expression tries
      each start position in turn, and matches where ``` is followed by a word
      character; the capture is then the whole run of word characters. */
  function FenceWord(s: string): (r: Option<string>)
    ensures r.Some? ==> r.value != []
    decreases |s|
  {
    if |s| < 3 then None
    else if s[..3] == "```" && |s| > 3 && IsWordChar(s[3]) then Some(s[3..3 + Span(s[3..], IsWordChar)])
    else FenceWord(s[1..])
  }

  /** The fence's language: the captured word, or 'text' when there is none. */
  function FenceLanguage(line: string): (r: string)
    ensures r != []
  {
    match FenceWord(line)
    case Some(w) => w
    case None => "text"
  }

  /** An opening fence directly followed by a word names that word's language; a bare
      fence names 'text'. */
  lemma FenceLanguageCases(line: string)
    ensures StartsWith(line, "```") && |line| > 3 && IsWordChar(line[3]) ==>
      var n := Span(line[3..], IsWordChar);
      n >= 1 && FenceLanguage(line) == line[3..3 + n] && forall i :: 3 <= i < 3 + n ==> IsWordChar(line[i])
    ensures FenceLanguage("```") == "text"
  {
    assert "```"[1..] == "``";
  }

  /** A character the content test removes: a bar, a dash, a colon or white space. */
  predicate IsTableMark(c: char)
  {
    c == '|' || c == '-' || c == ':' || IsSpace(c)
  }

  /** Something is left once the table marks are removed. */
  predicate HasContent(t: string)
  {
    exists i :: 0 <= i < |t| && !IsTableMark(t[i])
  }

  predicate IsDash(c: char)
  {
    c == '-'
  }

  /** \s*-+\s*: white space, at least one dash, white space. */
  predicate DashCell(c: string)
  {
    var a := Span(c, IsSpace);
    var d := Span(c[a..], IsDash);
    d >= 1 && AllSpace(c[a + d..])
  }

  predicate IsBar(c: char)
  {
    c == '|'
  }

  /** (\s*-+\s*\|)+ — a dash cell cannot hold a '|', so each cell ends at the next bar. */
  predicate SepCells(s: string)
    decreases |s|
  {
    var p := Span(s, (c: char) => !IsBar(c));
    p < |s| && DashCell(s[..p]) && (p + 1 == |s| || SepCells(s[p + 1..]))
  }

  /** /^\|\s*\-+\s*(\|\s*\-+\s*)*\|$/, the same language as \|(\s*-+\s*\|)+. */
  predicate IsSeparator(t: string)
  {
    |t| >= 1 && t[0] == '|' && SepCells(t[1..])
  }

  /** The filter a flush applies to the collected rows. */
  predicate ValidRow(row: string)
  {
    var trimmed := Trim(row);
    StartsWith(trimmed, "|") && HasContent(trimmed) && !IsSeparator(trimmed)
  }

  lemma DashCellMarks(c: string)
    requires DashCell(c)
    ensures forall i :: 0 <= i < |c| ==> IsTableMark(c[i])
  {
    var a := Span(c, IsSpace);
    var d := Span(c[a..], IsDash);
    forall i | 0 <= i < |c|
      ensures IsTableMark(c[i])
    {
      if i < a {
      } else if i < a + d {
        assert c[i] == c[a..][i - a];
      } else {
        assert c[i] == c[a + d..][i - a - d];
      }
    }
  }

  lemma {:induction false} SepCellsMarks(s: string)
    requires SepCells(s)
    ensures forall i :: 0 <= i < |s| ==> IsTableMark(s[i])
    decreases |s|
  {
    var p := Span(s, (c: char) => !IsBar(c));
    DashCellMarks(s[..p]);
    if p + 1 < |s| {
      SepCellsMarks(s[p + 1..]);
    }
    forall i | 0 <= i < |s|
      ensures IsTableMark(s[i])
    {
      if i < p {
        assert s[i] == s[..p][i];
      } else if i > p {
        assert s[i] == s[p + 1..][i - p - 1];
      }
    }
  }

  /** A separator row is all bars, dashes and white space. */
  lemma SeparatorHasNoContent(t: string)
    requires IsSeparator(t)
    ensures !HasContent(t)
  {
    SepCellsMarks(t[1..]);
    forall i | 0 <= i < |t|
      ensures IsTableMark(t[i])
    {
      if i > 0 {
        assert t[i] == t[1..][i - 1];
      }
    }
  }

  /** So the separator test never removes a row the content test kept: a valid row is
      exactly a trimmed row starting with '|' with something besides table marks. */
  lemma ValidRowIff(row: string)
    ensures ValidRow(row) <==> StartsWith(Trim(row), "|") && HasContent(Trim(row))
  {
    if IsSeparator(Trim(row)) {
      SeparatorHasNoContent(Trim(row));
    }
  }

  /** The table a flush adds: none when no row is valid. */
  function Flush(rows: seq<string>): (r: seq<Element>)
    ensures r == [] <==> forall i :: 0 <= i < |rows| ==> !ValidRow(rows[i])
    ensures r != [] ==> r == [Table(Filter(rows, ValidRow))]
  {
    FilterContents(rows, ValidRow);
    var validRows := Filter(rows, ValidRow);
    if |validRows| > 0 then [Table(validRows)] else []
  }

  lemma PrefixNotBlank(line: string, prefix: string)
    requires prefix != [] && !IsSpace(prefix[0])
    ensures StartsWith(line, prefix) ==> !AllSpace(line)
  {
    if StartsWith(line, prefix) {
      assert line[0] == prefix[0];
    }
  }

  /** At most one of the classifying prefixes applies. */
  lemma PrefixesExclusive(line: string)
    ensures StartsWith(line, "## ") ==> !StartsWith(line, "### ") && !StartsWith(line, "- **")
    ensures StartsWith(line, "### ") ==> !StartsWith(line, "- **")
  {
    if StartsWith(line, "## ") {
      assert line[0] == '#' && line[2] == ' ';
    }
    if StartsWith(line, "### ") {
      assert line[0] == '#';
    }
  }

  /** What a line outside code and tables adds. String.replace removes the first
      occurrence of its pattern, here the prefix the line was tested for. */
  function Classify(line: string): (r: seq<Element>)
    ensures r == [] <==> AllSpace(line)
    ensures StartsWith(line, "## ") ==> r == [H3(line[3..])]
    ensures StartsWith(line, "### ") ==> r == [H4(line[4..])]
    ensures StartsWith(line, "- **") ==> r == [Li(line[2..])]
    ensures |r| <= 1 && (r != [] && r[0].P? ==> r == [P(line)])
  {
    TrimEmptyIff(line);
    PrefixNotBlank(line, "## ");
    PrefixNotBlank(line, "### ");
    PrefixNotBlank(line, "- **");
    PrefixesExclusive(line);
    if StartsWith(line, "## ") then [H3(line[3..])]
    else if StartsWith(line, "### ") then [H4(line[4..])]
    else if StartsWith(line, "- **") then [Li(line[2..])]
    else if Trim(line) != "" then [P(line)]
    else []
  }

  /** The renderer's reaction to one line. */
  function Step(st: State, line: string): State
  {
    if StartsWith(line, "```") then
      if st.inCodeBlock then
        st.(inCodeBlock := false, currentCode := "", currentLanguage := "text",
            elements := st.elements + [Code(st.currentLanguage, st.currentCode)])
      else
        st.(inCodeBlock := true, currentCode := "", currentLanguage := FenceLanguage(line))
    else if st.inCodeBlock then
      st.(currentCode := st.currentCode + line + "\n")
    else if StartsWith(line, "|") then
      st.(inTable := true, tableRows := (if st.inTable then st.tableRows else []) + [line])
    else if st.inTable then
      st.(inTable := false, tableRows := [],
          elements := st.elements + (if |st.tableRows| > 0 then Flush(st.tableRows) else []) + Classify(line))
    else
      st.(elements := st.elements + Classify(line))
  }

  /** The state after the given lines. */
  function Run(lines: seq<string>): State
  {
    if lines == [] then Start else Step(Run(lines[..|lines| - 1]), lines[|lines| - 1])
  }

  /** The elements once the input is over: an open table is flushed, an open code block
      is dropped. */
  function Finish(st: State): seq<Element>
  {
    st.elements + (if st.inTable && |st.tableRows| > 0 then Flush(st.tableRows) else [])
  }

  /** The section's elements. */
  method RenderSection(content: string) returns (elements: seq<Element>)
    ensures elements == Finish(Run(Split(content, '\n')))
  {
    var lines := Split(content, '\n');
    var inCodeBlock := false;
    var inTable := false;
    var currentCode := "";
    var currentLanguage := "text";
    var tableRows: seq<string> := [];
    elements := [];
    for i := 0 to |lines|
      invariant State(inCodeBlock, inTable, currentCode, currentLanguage, tableRows, elements) == Run(lines[..i])
    {
      var line := lines[i];
      assert lines[..i + 1][..i] == lines[..i];
      if StartsWith(line, "```") {
        if inCodeBlock {
          elements := elements + [Code(currentLanguage, currentCode)];
          inCodeBlock := false;
          currentCode := "";
          currentLanguage := "text";
        } else {
          currentLanguage := FenceLanguage(line);
          inCodeBlock := true;
          currentCode := "";
        }
      } else if inCodeBlock {
        currentCode := currentCode + line + "\n";
      } else if StartsWith(line, "|") {
        if !inTable {
          inTable := true;
          tableRows := [];
        }
        tableRows := tableRows + [line];
      } else if inTable {
        if |tableRows| > 0 {
          elements := elements + Flush(tableRows);
        }
        inTable := false;
        tableRows := [];
        elements := elements + Classify(line);
      } else {
        elements := elements + Classify(line);
      }
    }
    assert lines[..|lines|] == lines;
    if inTable && |tableRows| > 0 {
      elements := elements + Flush(tableRows);
    }
  }

  /** What one line does, by the branch of the loop it takes:
      - a fence closing a code block emits exactly one code element, of the collected
        text in the opening fence's language, and resets the buffer and the language;
        a fence opening one emits nothing and sets the language; neither touches the
        table rows;
      - inside a code block any other line is appended with a newline and nothing else
        changes: it is never a heading, a table row or a paragraph;
      - outside code a line starting with '|' is collected, opening a new set of rows
        after a non-table line and continuing the current one otherwise;
      - any other line first flushes pending table rows and is then classified itself. */
  lemma StepCases(st: State, line: string)
    ensures StartsWith(line, "```") && st.inCodeBlock ==>
      Step(st, line).elements == st.elements + [Code(st.currentLanguage, st.currentCode)] &&
      !Step(st, line).inCodeBlock && Step(st, line).currentCode == "" && Step(st, line).currentLanguage == "text"
    ensures StartsWith(line, "```") && !st.inCodeBlock ==>
      Step(st, line).elements == st.elements && Step(st, line).inCodeBlock &&
      Step(st, line).currentCode == "" && Step(st, line).currentLanguage == FenceLanguage(line)
    ensures StartsWith(line, "```") ==> Step(st, line).inTable == st.inTable && Step(st, line).tableRows == st.tableRows
    ensures !StartsWith(line, "```") && st.inCodeBlock ==>
      Step(st, line) == st.(currentCode := st.currentCode + line + "\n")
    ensures !st.inCodeBlock && !StartsWith(line, "```") && StartsWith(line, "|") ==>
      Step(st, line).elements == st.elements && Step(st, line).inTable &&
      Step(st, line).tableRows == (if st.inTable then st.tableRows else []) + [line]
    ensures !st.inCodeBlock && !StartsWith(line, "```") && !StartsWith(line, "|") ==>
      Step(st, line).elements == st.elements + (if st.inTable then Flush(st.tableRows) else []) + Classify(line) &&
      !Step(st, line).inTable && !Step(st, line).inCodeBlock
  {
    if !st.inCodeBlock && !StartsWith(line, "```") && !StartsWith(line, "|") && st.inTable && |st.tableRows| == 0 {
      assert Flush(st.tableRows) == [];
    }
  }

  /** Emitted elements are never taken back: each line only appends. */
  lemma {:induction false} ElementsOnlyGrow(lines: seq<string>, k: nat)
    requires k <= |lines|
    ensures |Run(lines[..k]).elements| <= |Run(lines).elements|
    ensures Run(lines).elements[..|Run(lines[..k]).elements|] == Run(lines[..k]).elements
    decreases |lines| - k
  {
    if k < |lines| {
      var n := |lines|;
      assert lines[..n] == lines;
      ElementsOnlyGrow(lines[..n - 1], k);
      assert lines[..n - 1][..k] == lines[..k];
      var before := Run(lines[..n - 1]).elements;
      var after := Run(lines).elements;
      assert after[..|before|] == before;
    } else {
      assert lines[..k] == lines;
    }
  }

  /** A code block still open at the end of the input emits nothing: the final elements
      do not depend on the open block's buffer or language. */
  lemma OpenCodeEmitsNothing(st: State, code: string, language: string)
    requires st.inCodeBlock
    ensures Finish(st.(currentCode := code, currentLanguage := language)) == Finish(st)
    ensures Finish(st.(inCodeBlock := false, currentCode := "", currentLanguage := "text")) == Finish(st)
  {
  }

  /** A fence line does not flush the table: rows collected before a code block and rows
      after it end up in the same table. */
  lemma FenceKeepsTableOpen(st: State, open: string, code: string, close: string, row: string)
    requires !st.inCodeBlock && st.inTable
    requires StartsWith(open, "```") && StartsWith(close, "```") && !StartsWith(code, "```")
    requires StartsWith(row, "|") && !StartsWith(row, "```")
    ensures var after := Step(Step(Step(Step(st, open), code), close), row);
      after.inTable && after.tableRows == st.tableRows + [row] &&
      after.elements == st.elements + [Code(FenceLanguage(open), code + "\n")]
  {
    var s1 := Step(st, open);
    assert s1.inCodeBlock && s1.inTable && s1.currentCode == "";
    var s2 := Step(s1, code);
    assert s2.currentCode == code + "\n" by { assert "" + code == code; }
  }
}
