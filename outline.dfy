/** extract_outline: the title of the document and the headings found by one
    scan over its pages, blocks and lines, each heading kept once per
    lower-cased text (main.py:44-104). */
module Headings {
  import opened Wrappers
  import opened PyText
  import opened Layout
  import opened Levels
  import opened Title

  /** One outline entry: {"level": ..., "text": ..., "page": ...}. */
  datatype Entry = Entry(level: Level, text: string, page: nat)

  /** The dictionary extract_outline returns. */
  datatype Extraction = Extraction(title: string, outline: seq<Entry>)

  /** The exceptions extract_outline can raise on a well-formed input:
      doc[0] of a document without pages, and the mean of an empty list of
      font sizes when no page has a span. */
  datatype Failure = NoPages | NoFontSizes

  datatype Result = Ok(value: Extraction) | Err(failure: Failure)

  /** A line that is not bold must have a span larger than this to be a
      heading. */
  const HeadingMinSize: real := 12.0

  /** What seen_texts records of an entry: its lower-cased text. */
  function Key(e: Entry): string
  {
    Lower(e.text)
  }

  /** The entry one line of page `page` yields before the seen_texts check,
      if any: the line has spans, its text is neither empty nor the title
      (ignoring case), it is bold or has a span larger than 12, and its
      largest span size has a level. Since a level needs a size above 11, a
      bold line still needs a span larger than 11. */
  function LineEntry(l: Line, page: nat, titleKey: string): Option<Entry>
  {
    if l.spans == [] then None
    else
      var text := LineText(l.spans);
      if text == [] || Lower(text) == titleKey then None
      else
        var size := MaxSize(l.spans);
        if AnyBold(l.spans) || size > HeadingMinSize then
          match ClassifyLevel(size)
          case Some(level) => Some(Entry(level, text, page))
          case None => None
        else None
  }

  /** A line is a heading exactly when it has spans, its text is neither empty
      nor the title (ignoring case), and it is larger than 12, or larger than
      11 and bold; its entry carries that text, the level of its largest size
      and the page number. */
  lemma LineEntrySpec(l: Line, page: nat, titleKey: string)
    ensures var r := LineEntry(l, page, titleKey);
            r.Some? <==>
              l.spans != [] && LineText(l.spans) != [] && Lower(LineText(l.spans)) != titleKey &&
              (MaxSize(l.spans) > HeadingMinSize || (AnyBold(l.spans) && MaxSize(l.spans) > LevelFloor))
    ensures var r := LineEntry(l, page, titleKey);
            r.Some? ==>
              l.spans != [] && r.value.text == LineText(l.spans) && r.value.page == page &&
              ClassifyLevel(MaxSize(l.spans)) == Some(r.value.level) &&
              Trimmed(r.value.text) && Key(r.value) != titleKey
  {
  }

  function AsSeq(o: Option<Entry>): seq<Entry>
  {
    if o.Some? then [o.value] else []
  }

  /** The entries some lines of page `page` yield, in line order. */
  function LineEntries(lines: seq<Line>, page: nat, titleKey: string): seq<Entry>
  {
    if lines == [] then []
    else LineEntries(lines[..|lines| - 1], page, titleKey) + AsSeq(LineEntry(lines[|lines| - 1], page, titleKey))
  }

  /** The entries the text blocks among `blocks` yield, in block order. */
  function BlockEntries(blocks: seq<Block>, page: nat, titleKey: string): seq<Entry>
  {
    if blocks == [] then []
    else
      BlockEntries(blocks[..|blocks| - 1], page, titleKey) +
      match blocks[|blocks| - 1]
      case TextBlock(lines) => LineEntries(lines, page, titleKey)
      case OtherBlock => []
  }

  /** The entries the pages yield in reading order; the k-th page (from 1)
      is numbered k. */
  function PageEntries(pages: seq<Page>, titleKey: string): seq<Entry>
  {
    if pages == [] then []
    else PageEntries(pages[..|pages| - 1], titleKey) + BlockEntries(pages[|pages| - 1].blocks, |pages|, titleKey)
  }

  /** The lower-cased texts of some entries. */
  function Keys(es: seq<Entry>): set<string>
  {
    if es == [] then {} else Keys(es[..|es| - 1]) + {Key(es[|es| - 1])}
  }

  /** No entry before position k has the same lower-cased text. */
  predicate IsFirst(es: seq<Entry>, k: int)
    requires 0 <= k < |es|
  {
    forall m :: 0 <= m < k ==> Key(es[m]) != Key(es[k])
  }

  /** The entries kept by the seen_texts filter: each one whose lower-cased
      text no earlier entry had. */
  function Dedup(es: seq<Entry>): seq<Entry>
  {
    if es == [] then []
    else
      var init, last := es[..|es| - 1], es[|es| - 1];
      if Key(last) in Keys(init) then Dedup(init) else Dedup(init) + [last]
  }

  /** extract_outline, stated on its input. */
  function Outline(doc: seq<Page>): (r: Result)
    ensures r == Err(NoPages) <==> doc == []
    ensures r == Err(NoFontSizes) <==> doc != [] && !HasSpans(doc)
    ensures r.Ok? ==> r.value.title == PageTitle(doc[0])
  {
    if doc == [] then Err(NoPages)
    else
      var title := Strip(PageTitle(doc[0]));
      TitleStripped(doc[0]);
      if !HasSpans(doc) then Err(NoFontSizes)
      else Ok(Extraction(title, Dedup(PageEntries(doc, Lower(title)))))
  }

  /** The entries of the whole document before the seen_texts filter. */
  function HeadingCandidates(doc: seq<Page>): seq<Entry>
    requires doc != []
  {
    PageEntries(doc, Lower(PageTitle(doc[0])))
  }

  // Unfolding the prefix-recursive definitions one step

  lemma LineEntriesSnoc(lines: seq<Line>, j: nat, page: nat, titleKey: string)
    requires j < |lines|
    ensures LineEntries(lines[..j + 1], page, titleKey) ==
            LineEntries(lines[..j], page, titleKey) + AsSeq(LineEntry(lines[j], page, titleKey))
  {
    assert lines[..j + 1][..j] == lines[..j];
  }

  lemma BlockEntriesSnoc(blocks: seq<Block>, i: nat, page: nat, titleKey: string)
    requires i < |blocks|
    ensures BlockEntries(blocks[..i + 1], page, titleKey) ==
            BlockEntries(blocks[..i], page, titleKey) +
            if blocks[i].TextBlock? then LineEntries(blocks[i].lines, page, titleKey) else []
  {
    assert blocks[..i + 1][..i] == blocks[..i];
  }

  lemma PageEntriesSnoc(pages: seq<Page>, i: nat, titleKey: string)
    requires i < |pages|
    ensures PageEntries(pages[..i + 1], titleKey) ==
            PageEntries(pages[..i], titleKey) + BlockEntries(pages[i].blocks, i + 1, titleKey)
  {
    assert pages[..i + 1][..i] == pages[..i];
  }

  /** Appending one entry: it is kept exactly when its lower-cased text is
      new, and its text joins the seen set either way. */
  lemma DedupSnoc(es: seq<Entry>, e: Entry)
    ensures Dedup(es + [e]) == if Key(e) in Keys(es) then Dedup(es) else Dedup(es) + [e]
    ensures Keys(es + [e]) == Keys(es) + {Key(e)}
  {
    assert (es + [e])[..|es|] == es;
  }

  lemma AppendAssoc(a: seq<Entry>, b: seq<Entry>, c: seq<Entry>)
    ensures a + (b + c) == (a + b) + c
  {
  }

  lemma DedupAppendNone(es: seq<Entry>)
    ensures Dedup(es + []) == Dedup(es) && Keys(es + []) == Keys(es)
  {
    assert es + [] == es;
  }

  // The seen_texts filter

  lemma {:induction false} KeysMembers(es: seq<Entry>, k: string)
    ensures k in Keys(es) <==> exists i :: 0 <= i < |es| && Key(es[i]) == k
  {
    if es != [] {
      var init := es[..|es| - 1];
      KeysMembers(init, k);
      assert forall i :: 0 <= i < |init| ==> init[i] == es[i];
    }
  }

  /** Every kept entry is one of the input entries. */
  lemma {:induction false} DedupSubset(es: seq<Entry>)
    ensures forall e :: e in Dedup(es) ==> e in es
  {
    if es != [] {
      var init := es[..|es| - 1];
      DedupSubset(init);
      assert es == init + [es[|es| - 1]];
    }
  }

  /** The filter loses no lower-cased text: every text seen is in the
      outline. */
  lemma {:induction false} DedupKeys(es: seq<Entry>)
    ensures Keys(Dedup(es)) == Keys(es)
  {
    if es != [] {
      var init, last := es[..|es| - 1], es[|es| - 1];
      DedupKeys(init);
      if Key(last) !in Keys(init) {
        DedupSnoc(Dedup(init), last);
      }
    }
  }

  /** No two kept entries have the same lower-cased text. */
  lemma {:induction false} DedupDistinct(es: seq<Entry>)
    ensures forall i, j :: 0 <= i < j < |Dedup(es)| ==> Key(Dedup(es)[i]) != Key(Dedup(es)[j])
  {
    if es != [] {
      var init, last := es[..|es| - 1], es[|es| - 1];
      DedupDistinct(init);
      if Key(last) !in Keys(init) {
        var d := Dedup(init);
        DedupKeys(init);
        KeysMembers(d, Key(last));
        assert Dedup(es) == d + [last];
      }
    }
  }

  /** An entry is kept exactly when it is the first of the input with its
      lower-cased text. */
  lemma {:induction false} DedupFirst(es: seq<Entry>, e: Entry)
    ensures e in Dedup(es) <==> exists k :: 0 <= k < |es| && es[k] == e && IsFirst(es, k)
  {
    if es != [] {
      var n := |es| - 1;
      var init, last := es[..n], es[n];
      DedupFirst(init, e);
      KeysMembers(init, Key(last));
      assert es == init + [last];
      DedupSnoc(init, last);
      if e in Dedup(es) {
        if e in Dedup(init) {
          var k :| 0 <= k < n && init[k] == e && IsFirst(init, k);
          assert es[k] == e && IsFirst(es, k);
        } else {
          assert e == last && IsFirst(es, n);
        }
      }
      if k :| 0 <= k < |es| && es[k] == e && IsFirst(es, k) {
        if k < n {
          assert init[k] == e && IsFirst(init, k);
        } else {
          assert Key(last) !in Keys(init);
        }
      }
    }
  }

  predicate PagesSorted(es: seq<Entry>)
  {
    forall i, j :: 0 <= i < j < |es| ==> es[i].page <= es[j].page
  }

  /** The filter keeps the input's order of pages. */
  lemma {:induction false} DedupSorted(es: seq<Entry>)
    requires PagesSorted(es)
    ensures PagesSorted(Dedup(es))
  {
    if es != [] {
      var init, last := es[..|es| - 1], es[|es| - 1];
      DedupSorted(init);
      DedupSubset(init);
      forall e | e in Dedup(init) ensures e.page <= last.page {
        var k :| 0 <= k < |init| && init[k] == e;
        assert es[k] == e;
      }
    }
  }

  // Where the entries come from

  lemma {:induction false} LineEntriesMembers(lines: seq<Line>, page: nat, titleKey: string, e: Entry)
    ensures e in LineEntries(lines, page, titleKey) <==>
            exists l :: l in lines && LineEntry(l, page, titleKey) == Some(e)
  {
    if e in LineEntries(lines, page, titleKey) {
      LineEntriesFrom(lines, page, titleKey, e);
    }
    if l :| l in lines && LineEntry(l, page, titleKey) == Some(e) {
      LineEntriesInclude(lines, page, titleKey, l);
    }
  }

  lemma {:induction false} LineEntriesFrom(lines: seq<Line>, page: nat, titleKey: string, e: Entry)
    requires e in LineEntries(lines, page, titleKey)
    ensures exists l :: l in lines && LineEntry(l, page, titleKey) == Some(e)
  {
    var init, last := lines[..|lines| - 1], lines[|lines| - 1];
    var entry := LineEntry(last, page, titleKey);
    assert lines == init + [last];
    assert LineEntries(lines, page, titleKey) == LineEntries(init, page, titleKey) + AsSeq(entry);
    if e in LineEntries(init, page, titleKey) {
      LineEntriesFrom(init, page, titleKey, e);
      var l :| l in init && LineEntry(l, page, titleKey) == Some(e);
      assert l in lines;
    } else {
      assert e in AsSeq(entry);
      assert last in lines && entry == Some(e);
    }
  }

  lemma {:induction false} LineEntriesInclude(lines: seq<Line>, page: nat, titleKey: string, l: Line)
    requires l in lines && LineEntry(l, page, titleKey).Some?
    ensures LineEntry(l, page, titleKey).value in LineEntries(lines, page, titleKey)
  {
    var init, last := lines[..|lines| - 1], lines[|lines| - 1];
    assert lines == init + [last];
    if l != last {
      assert l in init;
      LineEntriesInclude(init, page, titleKey, l);
    }
  }

  lemma {:induction false} BlockEntriesMembers(blocks: seq<Block>, page: nat, titleKey: string, e: Entry)
    ensures e in BlockEntries(blocks, page, titleKey) <==>
            exists b, l :: b in blocks && b.TextBlock? && l in b.lines && LineEntry(l, page, titleKey) == Some(e)
  {
    if blocks != [] {
      var init, last := blocks[..|blocks| - 1], blocks[|blocks| - 1];
      BlockEntriesMembers(init, page, titleKey, e);
      assert blocks == init + [last];
      if last.TextBlock? {
        LineEntriesMembers(last.lines, page, titleKey, e);
      }
    }
  }

  /** The candidates are exactly the entries the lines of the text blocks of
      the pages yield, each numbered with its page. */
  lemma {:induction false} PageEntriesMembers(pages: seq<Page>, titleKey: string, e: Entry)
    ensures e in PageEntries(pages, titleKey) <==>
            exists i, b, l :: 0 <= i < |pages| && b in pages[i].blocks && b.TextBlock? && l in b.lines &&
              LineEntry(l, i + 1, titleKey) == Some(e)
  {
    if pages != [] {
      var n := |pages| - 1;
      var init := pages[..n];
      PageEntriesMembers(init, titleKey, e);
      BlockEntriesMembers(pages[n].blocks, n + 1, titleKey, e);
      assert forall i :: 0 <= i < n ==> init[i] == pages[i];
    }
  }

  /** Pages are numbered from 1 to the number of pages and never go back. */
  lemma {:induction false} PageEntriesSorted(pages: seq<Page>, titleKey: string)
    ensures PagesSorted(PageEntries(pages, titleKey))
    ensures forall e :: e in PageEntries(pages, titleKey) ==> 1 <= e.page <= |pages|
  {
    if pages != [] {
      var n := |pages| - 1;
      var init := pages[..n];
      PageEntriesSorted(init, titleKey);
      var a, b := PageEntries(init, titleKey), BlockEntries(pages[n].blocks, n + 1, titleKey);
      forall e | e in b ensures e.page == n + 1 {
        BlockEntriesMembers(pages[n].blocks, n + 1, titleKey, e);
      }
      forall i, j | 0 <= i < j < |a + b| ensures (a + b)[i].page <= (a + b)[j].page {
        if j < |a| {
          assert (a + b)[i] == a[i] && (a + b)[j] == a[j];
        } else if i < |a| {
          assert (a + b)[i] in a && (a + b)[j] in b;
        } else {
          assert (a + b)[i] in b && (a + b)[j] in b;
        }
      }
    }
  }

  // extract_outline as the source writes it

  /** The body of the loop over the lines of a block (main.py:72-99): the
      line's entry, if any, is appended and its lower-cased text recorded,
      unless that text was seen before. */
  method ScanLine(l: Line, page: nat, titleKey: string, outline: seq<Entry>, seen: set<string>, ghost prev: seq<Entry>)
    returns (outline': seq<Entry>, seen': set<string>)
    requires outline == Dedup(prev) && seen == Keys(prev)
    ensures outline' == Dedup(prev + AsSeq(LineEntry(l, page, titleKey)))
    ensures seen' == Keys(prev + AsSeq(LineEntry(l, page, titleKey)))
  {
    outline', seen' := outline, seen;
    DedupAppendNone(prev);
    var spans := l.spans;
    if spans == [] {
      return;
    }
    var lineText := Join(CleanedTexts(spans));
    var lineTextCleaned := Strip(lineText);
    if lineTextCleaned == [] {
      return;
    }
    if Lower(lineTextCleaned) == titleKey {
      return;
    }
    var maxSize := MaxSize(spans);
    var isBold := AnyBold(spans);
    if isBold || maxSize > HeadingMinSize {
      var level := ClassifyLevel(maxSize);
      if level.Some? {
        var e := Entry(level.value, lineTextCleaned, page);
        DedupSnoc(prev, e);
        if Lower(lineTextCleaned) !in seen {
          outline' := outline + [e];
          seen' := seen + {Lower(lineTextCleaned)};
        }
      }
    }
  }

  /** The loop over the lines of one text block. */
  method ScanLines(lines: seq<Line>, page: nat, titleKey: string, outline: seq<Entry>, seen: set<string>, ghost prev: seq<Entry>)
    returns (outline': seq<Entry>, seen': set<string>)
    requires outline == Dedup(prev) && seen == Keys(prev)
    ensures outline' == Dedup(prev + LineEntries(lines, page, titleKey))
    ensures seen' == Keys(prev + LineEntries(lines, page, titleKey))
  {
    outline', seen' := outline, seen;
    assert prev + LineEntries(lines[..0], page, titleKey) == prev;
    var j := 0;
    while j < |lines|
      invariant 0 <= j <= |lines|
      invariant outline' == Dedup(prev + LineEntries(lines[..j], page, titleKey))
      invariant seen' == Keys(prev + LineEntries(lines[..j], page, titleKey))
    {
      ghost var done := prev + LineEntries(lines[..j], page, titleKey);
      outline', seen' := ScanLine(lines[j], page, titleKey, outline', seen', done);
      LineEntriesSnoc(lines, j, page, titleKey);
      AppendAssoc(prev, LineEntries(lines[..j], page, titleKey), AsSeq(LineEntry(lines[j], page, titleKey)));
      j := j + 1;
    }
    assert lines[..j] == lines;
  }

  /** The loop over the blocks of one page; blocks without lines are
      skipped. */
  method ScanBlocks(blocks: seq<Block>, page: nat, titleKey: string, outline: seq<Entry>, seen: set<string>, ghost prev: seq<Entry>)
    returns (outline': seq<Entry>, seen': set<string>)
    requires outline == Dedup(prev) && seen == Keys(prev)
    ensures outline' == Dedup(prev + BlockEntries(blocks, page, titleKey))
    ensures seen' == Keys(prev + BlockEntries(blocks, page, titleKey))
  {
    outline', seen' := outline, seen;
    assert prev + BlockEntries(blocks[..0], page, titleKey) == prev;
    var i := 0;
    while i < |blocks|
      invariant 0 <= i <= |blocks|
      invariant outline' == Dedup(prev + BlockEntries(blocks[..i], page, titleKey))
      invariant seen' == Keys(prev + BlockEntries(blocks[..i], page, titleKey))
    {
      ghost var done := prev + BlockEntries(blocks[..i], page, titleKey);
      ghost var added := if blocks[i].TextBlock? then LineEntries(blocks[i].lines, page, titleKey) else [];
      if blocks[i].TextBlock? {
        outline', seen' := ScanLines(blocks[i].lines, page, titleKey, outline', seen', done);
      } else {
        DedupAppendNone(done);
      }
      BlockEntriesSnoc(blocks, i, page, titleKey);
      AppendAssoc(prev, BlockEntries(blocks[..i], page, titleKey), added);
      i := i + 1;
    }
    assert blocks[..i] == blocks;
  }

  /** extract_outline: fails without pages or without spans, and otherwise
      returns the stripped title and the filtered headings of all pages. */
  method ExtractOutline(doc: seq<Page>) returns (r: Result)
    ensures r == Outline(doc)
  {
    if |doc| == 0 {
      return Err(NoPages);
    }
    var extracted := ExtractTitle(doc[0]);
    var title := Strip(extracted);
    var titleLower := Lower(title);
    if !HasSpans(doc) {
      return Err(NoFontSizes);
    }
    var outline: seq<Entry> := [];
    var seen: set<string> := {};
    var i := 0;
    while i < |doc|
      invariant 0 <= i <= |doc|
      invariant outline == Dedup(PageEntries(doc[..i], titleLower))
      invariant seen == Keys(PageEntries(doc[..i], titleLower))
    {
      ghost var done := PageEntries(doc[..i], titleLower);
      outline, seen := ScanBlocks(doc[i].blocks, i + 1, titleLower, outline, seen, done);
      PageEntriesSnoc(doc, i, titleLower);
      i := i + 1;
    }
    assert doc[..i] == doc;
    r := Ok(Extraction(title, outline));
  }

  // What extract_outline promises about its result

  /** No two outline entries have the same lower-cased text. */
  lemma OutlineDistinct(doc: seq<Page>)
    requires Outline(doc).Ok?
    ensures var o := Outline(doc).value.outline;
      forall i, j :: 0 <= i < j < |o| ==> Key(o[i]) != Key(o[j])
  {
    TitleStripped(doc[0]);
    DedupDistinct(HeadingCandidates(doc));
  }

  /** An entry is in the outline exactly when it is the first candidate, in
      page, block and line order, with its lower-cased text; and every
      candidate's lower-cased text is in the outline. */
  lemma OutlineFirstOccurrences(doc: seq<Page>, e: Entry)
    requires Outline(doc).Ok?
    ensures var cs := HeadingCandidates(doc);
      e in Outline(doc).value.outline <==> exists k :: 0 <= k < |cs| && cs[k] == e && IsFirst(cs, k)
    ensures Keys(Outline(doc).value.outline) == Keys(HeadingCandidates(doc))
  {
    TitleStripped(doc[0]);
    DedupFirst(HeadingCandidates(doc), e);
    DedupKeys(HeadingCandidates(doc));
  }

  /** Every outline entry is the entry of a heading line of its page: a
      non-empty line that is bold or has a span larger than 12, whose text is
      the entry's text, which is not the title, and whose largest span size
      gives the entry's level. */
  lemma OutlineEntriesAreHeadings(doc: seq<Page>, e: Entry)
    requires Outline(doc).Ok? && e in Outline(doc).value.outline
    ensures exists b, l :: 1 <= e.page <= |doc| && b in doc[e.page - 1].blocks && b.TextBlock? && l in b.lines &&
              l.spans != [] && e.text == LineText(l.spans) && e.text != [] &&
              (AnyBold(l.spans) || MaxSize(l.spans) > HeadingMinSize) &&
              ClassifyLevel(MaxSize(l.spans)) == Some(e.level)
    ensures Key(e) != Lower(Outline(doc).value.title)
  {
    TitleStripped(doc[0]);
    var tk := Lower(PageTitle(doc[0]));
    DedupSubset(HeadingCandidates(doc));
    PageEntriesMembers(doc, tk, e);
    var i, b, l :| 0 <= i < |doc| && b in doc[i].blocks && b.TextBlock? && l in b.lines && LineEntry(l, i + 1, tk) == Some(e);
    LineEntrySpec(l, i + 1, tk);
    assert e.page == i + 1;
  }

  /** Outline entries carry page numbers from 1 to the number of pages, in
      non-decreasing order. */
  lemma OutlineReadingOrder(doc: seq<Page>)
    requires Outline(doc).Ok?
    ensures var o := Outline(doc).value.outline;
      PagesSorted(o) && forall e :: e in o ==> 1 <= e.page <= |doc|
  {
    TitleStripped(doc[0]);
    var cs := HeadingCandidates(doc);
    PageEntriesSorted(doc, Lower(PageTitle(doc[0])));
    DedupSorted(cs);
    DedupSubset(cs);
  }

  /** Every heading line is represented: some outline entry has its
      lower-cased text (the first line with that text, which
      OutlineIncludesFirst shows is kept as it is). */
  lemma OutlineComplete(doc: seq<Page>, i: nat, b: Block, l: Line)
    requires Outline(doc).Ok?
    requires i < |doc| && b in doc[i].blocks && b.TextBlock? && l in b.lines
    requires LineEntry(l, i + 1, Lower(PageTitle(doc[0]))).Some?
    ensures var e := LineEntry(l, i + 1, Lower(PageTitle(doc[0]))).value;
      exists o :: o in Outline(doc).value.outline && Key(o) == Key(e)
  {
    TitleStripped(doc[0]);
    var tk := Lower(PageTitle(doc[0]));
    var e := LineEntry(l, i + 1, tk).value;
    var cs := HeadingCandidates(doc);
    PageEntriesMembers(doc, tk, e);
    KeysMembers(cs, Key(e));
    DedupKeys(cs);
    KeysMembers(Dedup(cs), Key(e));
  }

  /** The candidate entries of the lines before line li of text block bi of
      page i + 1, in reading order. */
  function EntriesBefore(doc: seq<Page>, titleKey: string, i: nat, bi: nat, li: nat): seq<Entry>
    requires i < |doc| && bi < |doc[i].blocks| && doc[i].blocks[bi].TextBlock? && li <= |doc[i].blocks[bi].lines|
  {
    PageEntries(doc[..i], titleKey) + BlockEntries(doc[i].blocks[..bi], i + 1, titleKey) +
    LineEntries(doc[i].blocks[bi].lines[..li], i + 1, titleKey)
  }

  lemma PrefixExtend(x: seq<Entry>, y: seq<Entry>, z: seq<Entry>)
    requires y <= z
    ensures x + y <= x + z
  {
    assert (x + z)[..|x + y|] == x + y;
  }

  lemma {:induction false} LineEntriesPrefix(lines: seq<Line>, n: nat, page: nat, titleKey: string)
    requires n <= |lines|
    ensures LineEntries(lines[..n], page, titleKey) <= LineEntries(lines, page, titleKey)
    decreases |lines| - n
  {
    if n == |lines| {
      assert lines[..n] == lines;
    } else {
      LineEntriesPrefix(lines, n + 1, page, titleKey);
      LineEntriesSnoc(lines, n, page, titleKey);
    }
  }

  lemma {:induction false} BlockEntriesPrefix(blocks: seq<Block>, n: nat, page: nat, titleKey: string)
    requires n <= |blocks|
    ensures BlockEntries(blocks[..n], page, titleKey) <= BlockEntries(blocks, page, titleKey)
    decreases |blocks| - n
  {
    if n == |blocks| {
      assert blocks[..n] == blocks;
    } else {
      BlockEntriesPrefix(blocks, n + 1, page, titleKey);
      BlockEntriesSnoc(blocks, n, page, titleKey);
    }
  }

  lemma {:induction false} PageEntriesPrefix(pages: seq<Page>, n: nat, titleKey: string)
    requires n <= |pages|
    ensures PageEntries(pages[..n], titleKey) <= PageEntries(pages, titleKey)
    decreases |pages| - n
  {
    if n == |pages| {
      assert pages[..n] == pages;
    } else {
      PageEntriesPrefix(pages, n + 1, titleKey);
      PageEntriesSnoc(pages, n, titleKey);
    }
  }

  lemma PrefixChain(p: seq<Entry>, b: seq<Entry>, l: seq<Entry>, x: seq<Entry>, le: seq<Entry>, be: seq<Entry>, cs: seq<Entry>)
    requires l + x <= le && b + le <= be && p + be <= cs
    ensures p + b + l + x <= cs
  {
    PrefixExtend(b, l + x, le);
    PrefixExtend(p, b + (l + x), be);
    assert p + b + l + x == p + (b + (l + x));
  }

  lemma LinePrefixStep(lines: seq<Line>, li: nat, page: nat, titleKey: string)
    requires li < |lines|
    ensures LineEntries(lines[..li], page, titleKey) + AsSeq(LineEntry(lines[li], page, titleKey)) <= LineEntries(lines, page, titleKey)
  {
    LineEntriesSnoc(lines, li, page, titleKey);
    LineEntriesPrefix(lines, li + 1, page, titleKey);
  }

  lemma BlockPrefixStep(blocks: seq<Block>, bi: nat, page: nat, titleKey: string)
    requires bi < |blocks| && blocks[bi].TextBlock?
    ensures BlockEntries(blocks[..bi], page, titleKey) + LineEntries(blocks[bi].lines, page, titleKey) <= BlockEntries(blocks, page, titleKey)
  {
    BlockEntriesSnoc(blocks, bi, page, titleKey);
    BlockEntriesPrefix(blocks, bi + 1, page, titleKey);
  }

  lemma PagePrefixStep(pages: seq<Page>, i: nat, titleKey: string)
    requires i < |pages|
    ensures PageEntries(pages[..i], titleKey) + BlockEntries(pages[i].blocks, i + 1, titleKey) <= PageEntries(pages, titleKey)
  {
    PageEntriesSnoc(pages, i, titleKey);
    PageEntriesPrefix(pages, i + 1, titleKey);
  }

  /** The candidates before a line, followed by the line's entry, start the
      document's candidate list. */
  lemma EntriesBeforePrefix(doc: seq<Page>, titleKey: string, i: nat, bi: nat, li: nat)
    requires i < |doc| && bi < |doc[i].blocks| && doc[i].blocks[bi].TextBlock? && li < |doc[i].blocks[bi].lines|
    ensures EntriesBefore(doc, titleKey, i, bi, li) + AsSeq(LineEntry(doc[i].blocks[bi].lines[li], i + 1, titleKey))
            <= PageEntries(doc, titleKey)
  {
    var blocks := doc[i].blocks;
    var lines := blocks[bi].lines;
    LinePrefixStep(lines, li, i + 1, titleKey);
    BlockPrefixStep(blocks, bi, i + 1, titleKey);
    PagePrefixStep(doc, i, titleKey);
    PrefixChain(PageEntries(doc[..i], titleKey), BlockEntries(blocks[..bi], i + 1, titleKey),
                LineEntries(lines[..li], i + 1, titleKey), AsSeq(LineEntry(lines[li], i + 1, titleKey)),
                LineEntries(lines, i + 1, titleKey), BlockEntries(blocks, i + 1, titleKey), PageEntries(doc, titleKey));
  }

  /** An entry whose lower-cased text none of the entries before it has is
      kept by the filter. */
  lemma FirstKept(cs: seq<Entry>, before: seq<Entry>, e: Entry)
    requires before + [e] <= cs && Key(e) !in Keys(before)
    ensures e in Dedup(cs)
  {
    var k := |before|;
    assert cs[..k + 1] == before + [e];
    assert cs[k] == e;
    KeysMembers(before, Key(e));
    forall m | 0 <= m < k ensures Key(cs[m]) != Key(cs[k]) {
      assert cs[m] == before[m];
    }
    DedupFirst(cs, e);
  }

  /** Completeness: a heading line whose lower-cased text no earlier line in
      page, block and line order produced is in the outline with its own
      stripped text, level and page number. */
  lemma OutlineIncludesFirst(doc: seq<Page>, i: nat, bi: nat, li: nat)
    requires Outline(doc).Ok?
    requires i < |doc| && bi < |doc[i].blocks| && doc[i].blocks[bi].TextBlock? && li < |doc[i].blocks[bi].lines|
    requires LineEntry(doc[i].blocks[bi].lines[li], i + 1, Lower(PageTitle(doc[0]))).Some?
    requires Key(LineEntry(doc[i].blocks[bi].lines[li], i + 1, Lower(PageTitle(doc[0]))).value) !in
             Keys(EntriesBefore(doc, Lower(PageTitle(doc[0])), i, bi, li))
    ensures LineEntry(doc[i].blocks[bi].lines[li], i + 1, Lower(PageTitle(doc[0]))).value in Outline(doc).value.outline
  {
    TitleStripped(doc[0]);
    var tk := Lower(PageTitle(doc[0]));
    var e := LineEntry(doc[i].blocks[bi].lines[li], i + 1, tk).value;
    EntriesBeforePrefix(doc, tk, i, bi, li);
    FirstKept(HeadingCandidates(doc), EntriesBefore(doc, tk, i, bi, li), e);
  }
}
