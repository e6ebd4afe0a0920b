/** The documentation page's section renderer (app/docs/page.tsx). A section's content is
    split into lines; lines whose trimmed form starts with '|' are gathered into tables
    (one per maximal run), the other non-blank lines are kept in order and grouped into
    ordered lists (consecutive "<digits>. " lines) and paragraphs. All tables are emitted
    before every list and paragraph. Also the table view (header, separator skipped,
    body), heading levels and the document search. */
module DocsBlocks {
  import opened Wrappers
  import opened Text

  datatype Block = Table(tableLines: seq<string>) | OrderedList(items: seq<string>) | Paragraph(content: string)

  /** A table line: its trimmed text starts with '|'. */
  predicate IsTableLine(line: string)
  {
    StartsWith(Trim(line), "|")
  }

  predicate NonBlank(line: string)
  {
    Trim(line) != ""
  }

  /** A line kept for the list/paragraph pass: not a table line and not blank. */
  predicate KeptLine(line: string)
  {
    !IsTableLine(line) && NonBlank(line)
  }

  predicate IsDigit(c: char)
  {
    '0' <= c <= '9'
  }

  /** `/^\d+\. /`: one or more digits, a dot and a space at the start. */
  predicate IsListItem(line: string)
  {
    var n := Span(line, IsDigit);
    n >= 1 && StartsWith(line[n..], ". ")
  }

  /** The maximal runs of consecutive lines passing `isTable`, in order: such a line
      continues the last run when the line before it passed too, and starts a new run
      when not. Stated for any line test; the renderer's test is IsTableLine. */
  function Runs(lines: seq<string>, isTable: string -> bool): (r: seq<seq<string>>)
    ensures lines != [] && isTable(lines[|lines| - 1]) ==> |r| > 0
    decreases |lines|
  {
    if lines == [] then []
    else
      var init, last := lines[..|lines| - 1], lines[|lines| - 1];
      var r := Runs(init, isTable);
      if !isTable(last) then r
      else if init != [] && isTable(init[|init| - 1]) then r[..|r| - 1] + [r[|r| - 1] + [last]]
      else r + [[last]]
  }

  /** Runs of a sequence of lines extended by one. */
  lemma RunsSnoc(init: seq<string>, last: string, isTable: string -> bool)
    ensures var r := Runs(init, isTable);
      Runs(init + [last], isTable) ==
        if !isTable(last) then r
        else if init != [] && isTable(init[|init| - 1]) then r[..|r| - 1] + [r[|r| - 1] + [last]]
        else r + [[last]]
  {
    assert (init + [last])[..|init|] == init;
  }

  /** The lists and paragraphs of the kept lines: a line passing `isItem` joins the list
      just before it, if any, otherwise opens one; every other line is a paragraph of its
      own. The renderer's test is IsListItem. */
  function Group(kept: seq<string>, isItem: string -> bool): (r: seq<Block>)
    ensures kept != [] && isItem(kept[|kept| - 1]) ==> |r| > 0 && r[|r| - 1].OrderedList?
    decreases |kept|
  {
    if kept == [] then []
    else
      var init, last := kept[..|kept| - 1], kept[|kept| - 1];
      var g := Group(init, isItem);
      if !isItem(last) then g + [Paragraph(last)]
      else if init != [] && isItem(init[|init| - 1]) then g[..|g| - 1] + [OrderedList(g[|g| - 1].items + [last])]
      else g + [OrderedList([last])]
  }

  /** Group of a sequence of kept lines extended by one. */
  lemma GroupSnoc(init: seq<string>, last: string, isItem: string -> bool)
    ensures var g := Group(init, isItem);
      Group(init + [last], isItem) ==
        if !isItem(last) then g + [Paragraph(last)]
        else if init != [] && isItem(init[|init| - 1]) then g[..|g| - 1] + [OrderedList(g[|g| - 1].items + [last])]
        else g + [OrderedList([last])]
  {
    assert (init + [last])[..|init|] == init;
  }

  /** One table block per run. */
  function TableBlocks(runs: seq<seq<string>>): (r: seq<Block>)
    ensures |r| == |runs|
  {
    if runs == [] then [] else TableBlocks(runs[..|runs| - 1]) + [Table(runs[|runs| - 1])]
  }

  /** Block k of TableBlocks is the table of run k. */
  lemma {:induction false} TableBlocksAt(runs: seq<seq<string>>)
    ensures forall k :: 0 <= k < |runs| ==> TableBlocks(runs)[k] == Table(runs[k])
    decreases |runs|
  {
    if runs != [] {
      TableBlocksAt(runs[..|runs| - 1]);
    }
  }

  lemma TableBlocksSnoc(runs: seq<seq<string>>, run: seq<string>)
    ensures TableBlocks(runs + [run]) == TableBlocks(runs) + [Table(run)]
  {
    assert (runs + [run])[..|runs|] == runs;
  }

  /** processedContent for a section's lines. */
  function Layout(lines: seq<string>): seq<Block>
  {
    TableBlocks(Runs(lines, IsTableLine)) + Group(Filter(lines, KeptLine), IsListItem)
  }

  /** The blocks emitted so far plus the one still being gathered, if any. */
  function Pending(done: seq<Block>, current: seq<string>, isList: bool): seq<Block>
  {
    done + (if current == [] then [] else if isList then [OrderedList(current)] else [Table(current)])
  }

  /** Equal sequences with one element appended had equal fronts and equal ends. */
  lemma SnocInjective<T>(a: seq<T>, x: T, b: seq<T>, y: T)
    requires a + [x] == b + [y]
    ensures a == b && x == y
  {
    assert |a| == |b|;
    assert (a + [x])[..|a|] == a && (b + [y])[..|b|] == b;
    assert (a + [x])[|a|] == x && (b + [y])[|b|] == y;
  }

  /** A line added to the run being gathered. */
  lemma ExtendRun(done: seq<Block>, current: seq<string>, r: seq<seq<string>>, line: string)
    requires r != [] && done + [Table(current)] == TableBlocks(r)
    ensures done + [Table(current + [line])] == TableBlocks(r[..|r| - 1] + [r[|r| - 1] + [line]])
  {
    var front, last := r[..|r| - 1], r[|r| - 1];
    assert TableBlocks(r) == TableBlocks(front) + [Table(last)];
    SnocInjective(done, Table(current), TableBlocks(front), Table(last));
    TableBlocksSnoc(front, last + [line]);
  }

  /** The table pass's invariant, after the first `init` lines. */
  predicate TablePassAt(done: seq<Block>, current: seq<string>, init: seq<string>, isTable: string -> bool)
  {
    Pending(done, current, false) == TableBlocks(Runs(init, isTable)) &&
    (current != [] <==> init != [] && isTable(init[|init| - 1]))
  }

  /** A table line continues the run being gathered. */
  lemma TableContinues(done: seq<Block>, current: seq<string>, init: seq<string>, line: string, isTable: string -> bool)
    requires TablePassAt(done, current, init, isTable) && isTable(line) && current != []
    ensures TablePassAt(done, current + [line], init + [line], isTable)
  {
    RunsSnoc(init, line, isTable);
    ExtendRun(done, current, Runs(init, isTable), line);
  }

  /** A table line after a non-table line opens a run. */
  lemma TableOpens(done: seq<Block>, init: seq<string>, line: string, isTable: string -> bool)
    requires TablePassAt(done, [], init, isTable) && isTable(line)
    ensures TablePassAt(done, [line], init + [line], isTable)
  {
    RunsSnoc(init, line, isTable);
    TableBlocksSnoc(Runs(init, isTable), [line]);
  }

  /** Any other line closes the run being gathered, if there is one. */
  lemma TableCloses(done: seq<Block>, current: seq<string>, init: seq<string>, line: string, isTable: string -> bool)
    requires TablePassAt(done, current, init, isTable) && !isTable(line)
    ensures TablePassAt(if current != [] then done + [Table(current)] else done, [], init + [line], isTable)
  {
    RunsSnoc(init, line, isTable);
  }

  /** An item added to the list being gathered. */
  lemma ExtendItems(done: seq<Block>, current: seq<string>, g: seq<Block>, line: string)
    requires g != [] && done + [OrderedList(current)] == g
    ensures done + [OrderedList(current + [line])] == g[..|g| - 1] + [OrderedList(g[|g| - 1].items + [line])]
  {
    assert g[..|g| - 1] == done;
  }

  /** The list pass's invariant, after the first `init` kept lines. */
  predicate ListPassAt(done: seq<Block>, current: seq<string>, init: seq<string>, isItem: string -> bool)
  {
    Pending(done, current, true) == Group(init, isItem) &&
    (current != [] <==> init != [] && isItem(init[|init| - 1]))
  }

  /** A list item continues the list being gathered. */
  lemma ListContinues(done: seq<Block>, current: seq<string>, init: seq<string>, line: string, isItem: string -> bool)
    requires ListPassAt(done, current, init, isItem) && isItem(line) && current != []
    ensures ListPassAt(done, current + [line], init + [line], isItem)
  {
    GroupSnoc(init, line, isItem);
    ExtendItems(done, current, Group(init, isItem), line);
  }

  /** A list item after a paragraph opens a list. */
  lemma ListOpens(done: seq<Block>, init: seq<string>, line: string, isItem: string -> bool)
    requires ListPassAt(done, [], init, isItem) && isItem(line)
    ensures ListPassAt(done, [line], init + [line], isItem)
  {
    GroupSnoc(init, line, isItem);
  }

  /** Any other line closes the list being gathered, if any, and is a paragraph. */
  lemma ListCloses(done: seq<Block>, current: seq<string>, init: seq<string>, line: string, isItem: string -> bool)
    requires ListPassAt(done, current, init, isItem) && !isItem(line)
    ensures ListPassAt((if current != [] then done + [OrderedList(current)] else done) + [Paragraph(line)], [], init + [line], isItem)
  {
    GroupSnoc(init, line, isItem);
  }

  /** The first pass of the renderer: table runs become table blocks, blank lines are
      dropped and the other lines are kept in order. */
  method TablePass(lines: seq<string>) returns (tables: seq<Block>, nonTableLines: seq<string>)
    ensures tables == TableBlocks(Runs(lines, IsTableLine))
    ensures nonTableLines == Filter(lines, KeptLine)
  {
    tables := [];
    var currentTable: seq<string> := [];
    nonTableLines := [];
    for i := 0 to |lines|
      invariant TablePassAt(tables, currentTable, lines[..i], IsTableLine)
      invariant nonTableLines == Filter(lines[..i], KeptLine)
    {
      var line := lines[i];
      assert lines[..i + 1] == lines[..i] + [line];
      FilterSnoc(lines[..i], line, KeptLine);
      if StartsWith(Trim(line), "|") {
        if currentTable != [] {
          TableContinues(tables, currentTable, lines[..i], line, IsTableLine);
        } else {
          TableOpens(tables, lines[..i], line, IsTableLine);
          assert currentTable + [line] == [line];
        }
        currentTable := currentTable + [line];
      } else {
        TableCloses(tables, currentTable, lines[..i], line, IsTableLine);
        if |currentTable| > 0 {
          tables := tables + [Table(currentTable)];
          currentTable := [];
        }
        if Trim(line) != "" {
          nonTableLines := nonTableLines + [line];
        }
      }
    }
    if |currentTable| > 0 {
      tables := tables + [Table(currentTable)];
    }
    assert lines[..|lines|] == lines;
  }

  /** The second pass: consecutive list items merge into one list, every other kept line
      is a paragraph. */
  method ListPass(nonTableLines: seq<string>) returns (blocks: seq<Block>)
    ensures blocks == Group(nonTableLines, IsListItem)
  {
    blocks := [];
    var currentList: seq<string> := [];
    for j := 0 to |nonTableLines|
      invariant ListPassAt(blocks, currentList, nonTableLines[..j], IsListItem)
    {
      var paragraph := nonTableLines[j];
      assert nonTableLines[..j + 1] == nonTableLines[..j] + [paragraph];
      if IsListItem(paragraph) {
        if currentList != [] {
          ListContinues(blocks, currentList, nonTableLines[..j], paragraph, IsListItem);
        } else {
          ListOpens(blocks, nonTableLines[..j], paragraph, IsListItem);
          assert currentList + [paragraph] == [paragraph];
        }
        currentList := currentList + [paragraph];
      } else {
        ListCloses(blocks, currentList, nonTableLines[..j], paragraph, IsListItem);
        if |currentList| > 0 {
          blocks := blocks + [OrderedList(currentList)];
          currentList := [];
        }
        blocks := blocks + [Paragraph(paragraph)];
      }
    }
    if |currentList| > 0 {
      blocks := blocks + [OrderedList(currentList)];
    }
    assert nonTableLines[..|nonTableLines|] == nonTableLines;
  }

  /** Both passes over `section.content.split('\n')`; processedContent receives the
      tables first and then the lists and paragraphs. */
  method GroupBlocks(content: string) returns (processedContent: seq<Block>)
    ensures processedContent == Layout(Split(content, '\n'))
  {
    var lines := Split(content, '\n');
    var tables, nonTableLines := TablePass(lines);
    var rest := ListPass(nonTableLines);
    processedContent := tables + rest;
  }

  /** Group never yields a table. */
  lemma {:induction false} GroupHasNoTables(kept: seq<string>, isItem: string -> bool)
    ensures forall k :: 0 <= k < |Group(kept, isItem)| ==> !Group(kept, isItem)[k].Table?
    decreases |kept|
  {
    if kept != [] {
      GroupHasNoTables(kept[..|kept| - 1], isItem);
    }
  }

  /** All table blocks come first: once a list or paragraph appears, no table follows,
      wherever the tables stood in the text. */
  lemma TablesFirst(lines: seq<string>)
    ensures forall i, j :: 0 <= i < j < |Layout(lines)| && !Layout(lines)[i].Table? ==> !Layout(lines)[j].Table?
    ensures forall i :: 0 <= i < |Layout(lines)| ==> (Layout(lines)[i].Table? <==> i < |Runs(lines, IsTableLine)|)
  {
    var t, g := TableBlocks(Runs(lines, IsTableLine)), Group(Filter(lines, KeptLine), IsListItem);
    TableBlocksAt(Runs(lines, IsTableLine));
    GroupHasNoTables(Filter(lines, KeptLine), IsListItem);
    assert forall i :: |t| <= i < |t + g| ==> (t + g)[i] == g[i - |t|];
  }

  function BlockLines(b: Block): nat
  {
    match b
    case Table(ls) => |ls|
    case OrderedList(items) => |items|
    case Paragraph(_) => 1
  }

  function TotalLines(bs: seq<Block>): nat
  {
    if bs == [] then 0 else TotalLines(bs[..|bs| - 1]) + BlockLines(bs[|bs| - 1])
  }

  function Flatten(runs: seq<seq<string>>): seq<string>
  {
    if runs == [] then [] else Flatten(runs[..|runs| - 1]) + runs[|runs| - 1]
  }

  lemma {:induction false} TotalLinesAppend(a: seq<Block>, b: seq<Block>)
    ensures TotalLines(a + b) == TotalLines(a) + TotalLines(b)
    decreases |b|
  {
    if b == [] {
      assert a + b == a;
    } else {
      TotalLinesAppend(a, b[..|b| - 1]);
      assert (a + b)[..|a + b| - 1] == a + b[..|b| - 1];
    }
  }

  /** A table block holds as many lines as its run. */
  lemma {:induction false} TableBlocksLines(runs: seq<seq<string>>)
    ensures TotalLines(TableBlocks(runs)) == |Flatten(runs)|
    decreases |runs|
  {
    if runs != [] {
      TableBlocksLines(runs[..|runs| - 1]);
      var tb := TableBlocks(runs);
      assert tb[..|tb| - 1] == TableBlocks(runs[..|runs| - 1]);
    }
  }

  /** The runs hold exactly the lines passing the test, in source order. */
  lemma {:induction false} RunsHoldTableLines(lines: seq<string>, isTable: string -> bool)
    ensures Flatten(Runs(lines, isTable)) == Filter(lines, isTable)
    decreases |lines|
  {
    if lines != [] {
      var init, last := lines[..|lines| - 1], lines[|lines| - 1];
      RunsHoldTableLines(init, isTable);
      FilterSnoc(init, last, isTable);
      RunsSnoc(init, last, isTable);
      assert init + [last] == lines;
      var r := Runs(init, isTable);
      if isTable(last) {
        if init != [] && isTable(init[|init| - 1]) {
          var front := r[..|r| - 1];
          assert r == front + [r[|r| - 1]];
          var r' := front + [r[|r| - 1] + [last]];
          assert r'[..|r'| - 1] == front;
          assert Flatten(r) == Flatten(front) + r[|r| - 1];
        } else {
          assert (r + [[last]])[..|r|] == r;
        }
      }
    }
  }

  /** Every kept line lands in exactly one list item or paragraph. */
  lemma {:induction false} GroupKeepsLines(kept: seq<string>, isItem: string -> bool)
    ensures TotalLines(Group(kept, isItem)) == |kept|
    decreases |kept|
  {
    if kept != [] {
      var init, last := kept[..|kept| - 1], kept[|kept| - 1];
      GroupKeepsLines(init, isItem);
      GroupSnoc(init, last, isItem);
      assert init + [last] == kept;
      var g := Group(init, isItem);
      if isItem(last) && init != [] && isItem(init[|init| - 1]) {
        var front := g[..|g| - 1];
        assert g == front + [g[|g| - 1]];
        var g' := front + [OrderedList(g[|g| - 1].items + [last])];
        assert g'[..|g'| - 1] == front;
      } else if isItem(last) {
        assert (g + [OrderedList([last])])[..|g|] == g;
      } else {
        assert (g + [Paragraph(last)])[..|g|] == g;
      }
    }
  }

  /** A non-blank line is a table line or a kept line, never both. */
  lemma {:induction false} NonBlankSplits(lines: seq<string>)
    ensures |Filter(lines, NonBlank)| == |Filter(lines, IsTableLine)| + |Filter(lines, KeptLine)|
    decreases |lines|
  {
    if lines != [] {
      var init, last := lines[..|lines| - 1], lines[|lines| - 1];
      NonBlankSplits(init);
      FilterSnoc(init, last, NonBlank);
      FilterSnoc(init, last, IsTableLine);
      FilterSnoc(init, last, KeptLine);
      assert init + [last] == lines;
    }
  }

  /** Every non-blank line of the section lands in exactly one block. */
  lemma LayoutKeepsLines(lines: seq<string>)
    ensures TotalLines(Layout(lines)) == |Filter(lines, NonBlank)|
  {
    TotalLinesAppend(TableBlocks(Runs(lines, IsTableLine)), Group(Filter(lines, KeptLine), IsListItem));
    TableBlocksLines(Runs(lines, IsTableLine));
    RunsHoldTableLines(lines, IsTableLine);
    GroupKeepsLines(Filter(lines, KeptLine), IsListItem);
    NonBlankSplits(lines);
  }

  /** The cells of a table row: split on '|', drop the blank pieces, trim the rest. */
  function Cells(line: string): (r: seq<string>)
  {
    var pieces := Filter(Split(line, '|'), NonBlank);
    seq(|pieces|, k requires 0 <= k < |pieces| => Trim(pieces[k]))
  }

  /** A rendered table: header cells and body rows of cells. */
  datatype TableView = TableView(header: seq<string>, body: seq<seq<string>>)

  /** Fewer than three non-blank lines render nothing; otherwise line 0 is the header,
      line 1 (the separator) is skipped and lines 2 onward are the body. */
  function RenderTable(tableLines: seq<string>): (r: Option<TableView>)
    ensures var ls := Filter(tableLines, NonBlank);
      (r.None? <==> |ls| < 3) &&
      (r.Some? ==> r.value.header == Cells(ls[0]) && |r.value.body| == |ls| - 2 &&
                   forall k :: 0 <= k < |ls| - 2 ==> r.value.body[k] == Cells(ls[k + 2]))
  {
    var ls := Filter(tableLines, NonBlank);
    if |ls| < 3 then None
    else
      var bodyLines := ls[2..];
      Some(TableView(Cells(ls[0]), seq(|bodyLines|, k requires 0 <= k < |bodyLines| => Cells(bodyLines[k]))))
  }

  predicate IsHash(c: char)
  {
    c == '#'
  }

  /** A paragraph starting with '#' becomes a heading: the level is the number of leading
      '#' (at least one, so the `|| 1` fallback never applies), the text is the rest,
      trimmed, and the tag is h2 for level 1, h3 for 2, h4 for 3 and h5 for anything
      deeper. */
  datatype Heading = Heading(tag: nat, text: string)

  function RenderHeading(paragraph: string): (r: Option<Heading>)
    ensures r.Some? <==> StartsWith(paragraph, "#")
    ensures r.Some? ==>
      var level := Span(paragraph, IsHash);
      level >= 1 && (forall i :: 0 <= i < level ==> paragraph[i] == '#') &&
      (level < |paragraph| ==> paragraph[level] != '#') &&
      r.value.text == Trim(paragraph[level..]) &&
      2 <= r.value.tag <= 5 && (level <= 3 ==> r.value.tag == level + 1) && (level > 3 ==> r.value.tag == 5)
  {
    if !StartsWith(paragraph, "#") then None
    else
      var level := Span(paragraph, IsHash);
      var tag := if level == 1 then 2 else if level == 2 then 3 else if level == 3 then 4 else 5;
      Some(Heading(tag, Trim(paragraph[level..])))
  }

  /** One, three and five leading hashes give h2, h4 and h5, with the text after them trimmed. */
  lemma HeadingTags()
    ensures RenderHeading("# A") == Some(Heading(2, "A"))
    ensures RenderHeading("### A") == Some(Heading(4, "A"))
    ensures RenderHeading("##### A") == Some(Heading(5, "A"))
  {
    assert "# A"[1..] == " A";
    assert "### A"[3..] == " A";
    assert "##### A"[5..] == " A";
    assert Trim(" A") == "A" by { assert TrimStart(" A") == "A" by { assert " A"[1..] == "A"; } }
  }

  datatype Section = Section(id: string, title: string, content: string)

  datatype DocumentItem = DocumentItem(id: string, title: string, sections: seq<Section>)

  /** A document matches when its title, or the title or content of one of its sections,
      contains the lowercased query. */
  predicate DocumentMatches(doc: DocumentItem, query: string)
  {
    var q := Lower(query);
    Contains(Lower(doc.title), q) ||
    exists k :: 0 <= k < |doc.sections| &&
      (Contains(Lower(doc.sections[k].title), q) || Contains(Lower(doc.sections[k].content), q))
  }

  /** filteredDocuments: every document for an empty query, else the matching ones. */
  function FilteredDocuments(documents: seq<DocumentItem>, query: string): seq<DocumentItem>
  {
    if query == "" then documents else Filter(documents, (d: DocumentItem) => DocumentMatches(d, query))
  }

  /** The search keeps documents in order, keeps every matching document, and keeps only
      matching ones. */
  lemma FilteredDocumentsSelection(documents: seq<DocumentItem>, query: string)
    ensures IsSubsequence(FilteredDocuments(documents, query), documents)
    ensures forall i :: 0 <= i < |documents| && DocumentMatches(documents[i], query) ==>
      documents[i] in FilteredDocuments(documents, query)
    ensures query != "" ==> forall i :: 0 <= i < |FilteredDocuments(documents, query)| ==>
      DocumentMatches(FilteredDocuments(documents, query)[i], query)
  {
    if query == "" {
      SubsequenceReflexive(documents);
    } else {
      ghost var p := (d: DocumentItem) => DocumentMatches(d, query);
      FilterIsSubsequence(documents, p);
      FilterContents(documents, p);
    }
  }
}
