/** What the PDF layout library hands the heuristic for one page, as
    page.get_text("dict") reports it, and the per-span and per-line measures
    the heuristic takes of it (main.py:7-11, 72-88). */
module Layout {
  import opened PyText

  /** One run of uniformly styled text: its text, the horizontal extent of its
      bounding box (bbox[0] and bbox[2]), its font size and its style flags. */
  datatype Span = Span(text: string, x0: real, x1: real, size: real, flags: int)

  datatype Line = Line(spans: seq<Span>)

  /** A block with a "lines" entry, or one without (an image block). */
  datatype Block = TextBlock(lines: seq<Line>) | OtherBlock

  datatype Page = Page(width: real, blocks: seq<Block>)

  /** How far, in layout units, a span's midpoint may be from the page's
      centre line and still count as centred. */
  const CenterTolerance: real := 50.0

  function Abs(x: real): real
  {
    if x < 0.0 then -x else x
  }

  /** is_centered: the midpoint of the span's box lies within the tolerance
      of the middle of the page, on either side. The test is evaluated
      multiplied through by 2 (the two box edges add up to within twice the
      tolerance of the page width), which over exact reals is the same test. */
  function IsCentered(s: Span, pageWidth: real): (r: bool)
    ensures r <==> Abs((s.x0 + s.x1) / 2.0 - pageWidth / 2.0) <= CenterTolerance
  {
    assert (s.x0 + s.x1) / 2.0 - pageWidth / 2.0 == (s.x0 + s.x1 - pageWidth) / 2.0;
    pageWidth - 2.0 * CenterTolerance <= s.x0 + s.x1 <= pageWidth + 2.0 * CenterTolerance
  }

  /** flags & 2 != 0 is bit 1 of flags: the remainder of flags by 4 is 2 or 3.
      Dafny's / by 2 rounds down and its % is never negative, so this reads
      bit 1 of the two's-complement value as Python does, for negative flags
      too. */
  predicate IsBold(flags: int)
    ensures IsBold(flags) <==> 2 <= flags % 4
  {
    assert flags == 4 * (flags / 4) + flags % 4;
    assert flags / 2 == 2 * (flags / 4) + (flags % 4) / 2;
    (flags / 2) % 2 == 1
  }

  /** max(span["size"] for span in spans). */
  function MaxSize(spans: seq<Span>): (m: real)
    requires spans != []
    ensures exists k :: 0 <= k < |spans| && spans[k].size == m
    ensures forall k :: 0 <= k < |spans| ==> spans[k].size <= m
  {
    if |spans| == 1 then spans[0].size
    else
      var rest := MaxSize(spans[1..]);
      assert forall k :: 1 <= k < |spans| ==> spans[k] == spans[1..][k - 1];
      if spans[0].size >= rest then spans[0].size else rest
  }

  /** any((span["flags"] & 2) != 0 for span in spans). */
  predicate AnyBold(spans: seq<Span>)
  {
    exists k :: 0 <= k < |spans| && IsBold(spans[k].flags)
  }

  /** A line is bold exactly when one of its spans has bit 1 of its flags
      set. */
  lemma AnyBoldSpec(spans: seq<Span>)
    ensures AnyBold(spans) <==> exists s :: s in spans && 2 <= s.flags % 4
  {
    if AnyBold(spans) {
      var k :| 0 <= k < |spans| && IsBold(spans[k].flags);
      assert spans[k] in spans;
    }
  }

  /** The clean_text of every span, in span order. */
  function CleanedTexts(spans: seq<Span>): seq<string>
  {
    seq(|spans|, k requires 0 <= k < |spans| => CleanText(spans[k].text))
  }

  /** " ".join(clean_text(span["text"]) for span in spans).strip(): the span
      texts are cleaned one by one and then joined, so a whitespace-only span
      between two others leaves two spaces in a row. */
  function LineText(spans: seq<Span>): (r: string)
    ensures Trimmed(r)
  {
    Strip(Join(CleanedTexts(spans)))
  }

  predicate PlainSpaces(s: string)
  {
    forall i :: 0 <= i < |s| && IsSpace(s[i]) ==> s[i] == ' '
  }

  /** The text of a line has no whitespace at its ends, and all the
      whitespace inside it is plain spaces. */
  lemma LineTextShape(spans: seq<Span>)
    ensures Trimmed(LineText(spans)) && PlainSpaces(LineText(spans))
  {
    var ts := CleanedTexts(spans);
    assert forall k :: 0 <= k < |ts| ==> PlainSpaces(ts[k]);
    JoinPlainSpaces(ts);
    var j := Join(ts);
    StripSlice(j);
    var i, e :| 0 <= i <= e <= |j| && LineText(spans) == j[i..e];
    assert forall k :: 0 <= k < e - i ==> LineText(spans)[k] == j[i + k];
  }

  lemma {:induction false} JoinPlainSpaces(ws: seq<string>)
    requires forall k :: 0 <= k < |ws| ==> PlainSpaces(ws[k])
    ensures PlainSpaces(Join(ws))
  {
    if |ws| > 1 {
      JoinPlainSpaces(ws[1..]);
      var w, j := ws[0], Join(ws[1..]);
      var s := w + " " + j;
      forall i | 0 <= i < |s| && IsSpace(s[i]) ensures s[i] == ' ' {
        if i < |w| {
          assert s[i] == w[i];
        } else if i > |w| {
          assert s[i] == j[i - |w| - 1];
        }
      }
    }
  }

  /** When no span of the line is blank, its text is fully normalised: the
      pieces are joined by exactly one space. */
  lemma LineTextNormalised(spans: seq<Span>)
    requires forall k :: 0 <= k < |spans| ==> !AllSpace(spans[k].text)
    ensures Normalised(LineText(spans))
  {
    var ts := CleanedTexts(spans);
    forall k | 0 <= k < |ts| ensures ts[k] != [] && Normalised(ts[k]) {
      CleanTextEmpty(spans[k].text);
    }
    JoinNormalised(ts);
    StripTrimmed(Join(ts));
  }

  /** A whitespace-only span between two words leaves a double space in the
      line's text. */
  lemma LineTextKeepsBlankSpanGap()
    ensures LineText([Span("A", 0.0, 0.0, 12.0, 0), Span(" ", 0.0, 0.0, 12.0, 0), Span("B", 0.0, 0.0, 12.0, 0)]) == "A  B"
    ensures !Normalised("A  B")
  {
    var spans := [Span("A", 0.0, 0.0, 12.0, 0), Span(" ", 0.0, 0.0, 12.0, 0), Span("B", 0.0, 0.0, 12.0, 0)];
    GapPieces(spans);
    GapJoin();
    StripTrimmed("A  B");
    assert "A  B"[1] == ' ' && "A  B"[2] == ' ';
  }

  lemma GapPieces(spans: seq<Span>)
    requires |spans| == 3 && spans[0].text == "A" && spans[1].text == " " && spans[2].text == "B"
    ensures CleanedTexts(spans) == ["A", "", "B"]
  {
    CleanLetter('A');
    CleanLetter('B');
    assert CleanText(" ") == [] by {
      assert " "[1..] == [];
    }
    var ts := CleanedTexts(spans);
    assert ts[0] == "A" && ts[1] == "" && ts[2] == "B";
  }

  lemma GapJoin()
    ensures Join(["A", "", "B"]) == "A  B"
  {
    assert ["A", "", "B"][1..] == ["", "B"];
    assert ["", "B"][1..] == ["B"];
    assert Join(["B"]) == "B";
    assert Join(["", "B"]) == " B";
  }

  lemma CleanLetter(c: char)
    requires 'A' <= c <= 'Z'
    ensures CleanText([c]) == [c]
  {
    assert !IsSpace(c);
    assert Word([c]) == [c];
    assert [c][1..] == [];
    assert Split([c]) == [[c]];
  }

  /** The spans of some lines, line after line. */
  function LineSpans(lines: seq<Line>): seq<Span>
  {
    if lines == [] then [] else LineSpans(lines[..|lines| - 1]) + lines[|lines| - 1].spans
  }

  /** The spans of the text blocks among blocks, in reading order. */
  function BlockSpans(blocks: seq<Block>): seq<Span>
  {
    if blocks == [] then []
    else
      BlockSpans(blocks[..|blocks| - 1]) +
      match blocks[|blocks| - 1]
      case TextBlock(lines) => LineSpans(lines)
      case OtherBlock => []
  }

  lemma LineSpansSnoc(lines: seq<Line>, j: nat)
    requires j < |lines|
    ensures LineSpans(lines[..j + 1]) == LineSpans(lines[..j]) + lines[j].spans
  {
    assert lines[..j + 1][..j] == lines[..j];
  }

  lemma BlockSpansSnoc(blocks: seq<Block>, i: nat)
    requires i < |blocks|
    ensures BlockSpans(blocks[..i + 1]) ==
            BlockSpans(blocks[..i]) + if blocks[i].TextBlock? then LineSpans(blocks[i].lines) else []
  {
    assert blocks[..i + 1][..i] == blocks[..i];
  }

  /** Every span of a page, in block, line and span order. */
  function PageSpans(p: Page): seq<Span>
  {
    BlockSpans(p.blocks)
  }

  lemma {:induction false} LineSpansMembers(lines: seq<Line>, s: Span)
    ensures s in LineSpans(lines) <==> exists l :: l in lines && s in l.spans
  {
    if lines != [] {
      var init, last := lines[..|lines| - 1], lines[|lines| - 1];
      LineSpansMembers(init, s);
      assert lines == init + [last];
    }
  }

  /** The reading-order span list of a page holds exactly the spans of the
      lines of its text blocks. */
  lemma {:induction false} BlockSpansMembers(blocks: seq<Block>, s: Span)
    ensures s in BlockSpans(blocks) <==>
            exists b, l :: b in blocks && b.TextBlock? && l in b.lines && s in l.spans
  {
    if blocks != [] {
      var init, last := blocks[..|blocks| - 1], blocks[|blocks| - 1];
      BlockSpansMembers(init, s);
      assert blocks == init + [last];
      if last.TextBlock? {
        LineSpansMembers(last.lines, s);
      }
    }
  }

  /** The document has at least one span, so the mean of its font sizes is
      defined. */
  predicate HasSpans(doc: seq<Page>)
  {
    exists i :: 0 <= i < |doc| && PageSpans(doc[i]) != []
  }

  /** The first pass appends one font size per span of every line of every
      text block, so the list it averages is non-empty exactly when some such
      line has a span. */
  lemma HasSpansLines(doc: seq<Page>)
    ensures HasSpans(doc) <==>
            exists p, b, l :: p in doc && b in p.blocks && b.TextBlock? && l in b.lines && l.spans != []
  {
    if HasSpans(doc) {
      var i :| 0 <= i < |doc| && PageSpans(doc[i]) != [];
      var s := PageSpans(doc[i])[0];
      BlockSpansMembers(doc[i].blocks, s);
      var b, l :| b in doc[i].blocks && b.TextBlock? && l in b.lines && s in l.spans;
      assert doc[i] in doc;
    }
    if exists p, b, l :: p in doc && b in p.blocks && b.TextBlock? && l in b.lines && l.spans != [] {
      var p, b, l :| p in doc && b in p.blocks && b.TextBlock? && l in b.lines && l.spans != [];
      BlockSpansMembers(p.blocks, l.spans[0]);
      var i :| 0 <= i < |doc| && doc[i] == p;
      assert PageSpans(doc[i]) != [];
    }
  }
}
