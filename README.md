# PDF outline heuristic in Dafny

This project models the heading and title heuristic of `main.py`, a tool that
turns the text layout of a PDF into a JSON outline. A PDF layout library gives
each page as blocks of lines of spans. Each span has a text, a bounding box, a
font size and style flags. From these the tool derives two things:

- **Title.** The title is the text of the largest centred span on the first
  page that is larger than 16. Among spans of equal size, the greatest text
  wins. With no such span the title is "Untitled Document".
- **Outline.** The outline is a list of `{level, text, page}` entries, one per
  heading line. A line is a heading when:
  - it has spans and its stripped text is not empty;
  - it is bold or has a span larger than 12;
  - it does not repeat the title;
  - its largest span size maps to H1, H2 or H3.

  Only the first line with a given lower-cased text is kept.

Modules, one per concern of the source:

- `Wrappers` (`wrappers.dfy`): `Option`.
- `PyText` (`text.dfy`): the Python string built-ins the tool relies on.
  - `str.isspace`, with the exact Python whitespace set.
  - ASCII `str.lower`.
  - `strip`, `split()` and `" ".join`.
  - `clean_text`, with its normal-form, idempotence and fixpoint lemmas.
- `Layout` (`layout.dfy`): the layout data as the library reports it.
  - The `Span`, `Line`, `Block` and `Page` values. A block without lines is `OtherBlock`.
  - `is_centered` and the bold bit.
  - The maximum span size and the joined line text.
  - The spans of a page in reading order.
- `Levels` (`levels.dfy`): `classify_level`.
- `Title` (`title.dfy`): `extract_title`.
  - It is a method with the source's nested loops.
  - It is proved equal to `PageTitle`, a declarative definition: the greatest (size, stripped text) pair under Python's tuple and string order.
  - The title's properties are proved about `PageTitle`.
- `Headings` (`outline.dfy`): the heading scan of `extract_outline`.
  - It is a method that walks pages, blocks and lines while growing an `outline` sequence and a `seen` set, as the source does.
  - It is proved equal to `Outline(doc)`. That spec takes the per-line candidate entries in reading order and keeps the first occurrence of each lower-cased text (`Dedup`).
  - Lemmas about `Outline` state what the tool promises about its output.

The failures the source raises on well-formed input are `Err` results:

- `NoPages`: a document with no pages, where `doc[0]` fails.
- `NoFontSizes`: a document with no span at all, where `statistics.mean` of an empty list fails.

The model keeps two behaviours of the code that one might expect to be otherwise:

- **Title tie-break.** The first candidate in document order does not win a tie. The code sorts `(size, text)` tuples in reverse, so the greatest text wins.
- **Empty document.** The tool does not return the fallback title with an empty outline. The code raises, which is modelled as `Err(NoPages)`.

## Model

| member | source | states |
|---|---|---|
| PyText.StripLeftSuffix | main.py:23 | what lstrip keeps is a suffix, all it drops is whitespace, and it begins with non-whitespace |
| PyText.StripRightPrefix | main.py:23 | what rstrip keeps is a prefix, all it drops is whitespace, and it ends with non-whitespace |
| PyText.LowerSpec | main.py:50 | lower() keeps the length, maps each ASCII capital to its own small letter (code point + 32), changes nothing else, and is idempotent |
| PyText.Strip | main.py:23 | the stripped text has no whitespace at either end |
| PyText.StripSlice | main.py:78 | strip returns a slice of its input with only whitespace cut off on each side |
| PyText.StripTrimmed | main.py:49 | stripping text without whitespace at its ends leaves it unchanged |
| PyText.StripIdempotent | main.py:49 | stripping twice equals stripping once |
| PyText.Word | main.py:32 | the first word is the longest whitespace-free prefix |
| PyText.Split | main.py:32 | split() yields non-empty words without whitespace |
| PyText.SplitFirstWord | main.py:32 | (helper: one-step unfolding of the definition) a string that starts with non-whitespace splits into its first word followed by the words of the rest |
| PyText.WordAppend | main.py:32 | text after a whitespace boundary does not change the first word |
| PyText.SplitWord | main.py:32 | a non-empty run without whitespace splits into exactly itself |
| PyText.SplitConcat | main.py:32 | across a whitespace boundary, the words of a + b are the words of a followed by those of b; with SplitWord and SplitEmpty this fixes the words as the maximal whitespace-free runs in order |
| PyText.SplitJoin | main.py:32 | splitting a single-space join of words gives back the words |
| PyText.JoinNormalised | main.py:32 | joining non-empty normalised pieces with one space gives a normalised string |
| PyText.CleanText | main.py:30-32 | clean_text output has no whitespace at the ends, and every inside whitespace is one plain space |
| PyText.CleanTextEmpty | main.py:30-32 | clean_text gives "" exactly for whitespace-only input |
| PyText.SplitEmpty | main.py:32 | split() gives no words exactly for whitespace-only input |
| PyText.CleanTextIdempotent | main.py:30-32 | applying clean_text twice equals applying it once |
| PyText.CleanTextFixpoint | main.py:30-32 | clean_text leaves a string unchanged exactly when the string is already normalised |
| PyText.NormalisedIsClean | main.py:30-32 | a normalised string is its own clean_text |
| Layout.IsCentered | main.py:7-11 | a span is centred iff the midpoint of its left and right edges is within 50 of half the page width |
| Layout.IsBold | main.py:88 | flags & 2 is non-zero iff flags mod 4 is 2 or 3 |
| Layout.AnyBoldSpec | main.py:88 | (helper: the definition restated as an existential) a line is bold iff one of its spans has the bold bit |
| Layout.MaxSize | main.py:87 | the result is some span's size and no span is larger |
| Layout.LineText | main.py:77-78 | the joined and stripped line text has no whitespace at its ends |
| Layout.LineTextShape | main.py:77-78 | a line's text has no whitespace at its ends, and all its whitespace is plain spaces |
| Layout.LineTextNormalised | main.py:77-78 | with no blank span, the line text is fully normalised |
| Layout.LineTextKeepsBlankSpanGap | main.py:77-78 | spans "A", " ", "B" give the line text "A  B", which is not normalised |
| Layout.LineSpansSnoc | main.py:20-21 | (helper: one-step unfolding of the definition) the spans of one more line follow those already visited |
| Layout.BlockSpansSnoc | main.py:17-21 | (helper: one-step unfolding of the definition) a text block adds its lines' spans, and a block without lines adds nothing |
| Layout.LineSpansMembers | main.py:20-21 | the visited spans are exactly those of the lines |
| Layout.BlockSpansMembers | main.py:17-21 | the visited spans are exactly those of the lines of the text blocks |
| Layout.HasSpansLines | main.py:52-63 | the font-size list is non-empty iff some line of a text block on some page has a span |
| Levels.ClassifyLevel | main.py:34-42 | H1 iff size > 16, H2 iff 13 < size <= 16, H3 iff 11 < size <= 13, none iff size <= 11 |
| Title.TextLeReflexive | main.py:26 | Python string <= is reflexive |
| Title.TextLeTotal | main.py:26 | any two strings are comparable by Python string <= |
| Title.TextLeTransitive | main.py:26 | Python string <= is transitive |
| Title.TextLeAntisymmetric | main.py:26 | two strings each <= the other are equal |
| Title.CandidateLeTransitive | main.py:26 | (size, text) tuple order is transitive |
| Title.TitleCandidatesStep | main.py:21-23 | (helper: one-step unfolding of the definition) one more span adds its candidate exactly when it is centred and larger than 16 |
| Title.TitleCandidatesAppend | main.py:17-23 | the candidates of two runs of spans are those of the first run followed by those of the second |
| Title.TitleCandidatesMembers | main.py:21-23 | the candidates are exactly (size, stripped text) of the centred spans larger than 16 |
| Title.Greatest | main.py:24-27 | the head of the reverse-sorted candidates is a candidate that no candidate exceeds |
| Title.GreatestStep | main.py:26 | the greater of a running maximum and a new candidate is above both |
| Title.PageTitle | main.py:24-28 | the title has no whitespace at its ends, the fallback included |
| Title.ExtractTitle | main.py:13-28 | the loop over blocks, lines and spans returns PageTitle of the page |
| Title.CollectLines | main.py:20-23 | the loop over a block's lines appends the candidates of their spans in order |
| Title.CollectCandidates | main.py:21-23 | the loop over a line's spans appends the candidates of its spans in order |
| Title.TitleSpec | main.py:16-28 | gives the fallback when no span is centred and larger than 16 (a qualifying span whose stripped text is "Untitled Document" gives it too); otherwise gives the stripped text of such a span that is maximal by size, then by text |
| Title.TitleUnique | main.py:26-27 | any qualifying span that no other qualifying span exceeds carries the title |
| Title.TitleStripped | main.py:49 | the .strip() applied to the title changes nothing |
| Headings.LineEntrySpec | main.py:72-93 | a line yields an entry iff it has spans, its text is non-empty and not the title (ignoring case), and its largest size is > 12, or > 11 when a span is bold; the entry's text is the stripped line text, its level is classify_level of the largest size, and its page is the page number |
| Headings.Outline | main.py:44-104 | no pages gives NoPages, no spans gives NoFontSizes, and a success carries the page-1 title |
| Headings.LineEntriesSnoc | main.py:71-72 | (helper: one-step unfolding of the definition) one more line adds its entry, if any |
| Headings.BlockEntriesSnoc | main.py:68-71 | (helper: one-step unfolding of the definition) a text block adds its lines' entries, and a block without lines adds nothing |
| Headings.PageEntriesSnoc | main.py:66-68 | (helper: one-step unfolding of the definition) page i+1 adds its blocks' entries numbered i+1 |
| Headings.DedupSnoc | main.py:93-99 | (helper: one-step unfolding of the definition) a new entry is kept exactly when its lower-cased text is unseen, and its text becomes seen |
| Headings.KeysMembers | main.py:99 | seen_texts holds exactly the lower-cased texts of the entries so far |
| Headings.DedupSubset | main.py:93-98 | every kept entry is a candidate entry |
| Headings.DedupKeys | main.py:93-99 | the kept entries cover every lower-cased text of the candidates |
| Headings.DedupDistinct | main.py:93-99 | no two kept entries have the same lower-cased text |
| Headings.DedupFirst | main.py:93-99 | an entry is kept iff it is the first candidate with its lower-cased text |
| Headings.DedupSorted | main.py:93-98 | filtering keeps the order of page numbers |
| Headings.LineEntriesMembers | main.py:71-72 | the entries of some lines are exactly the entries of those lines |
| Headings.LineEntriesFrom | main.py:71-72 | every entry of some lines is the entry of one of them |
| Headings.LineEntriesInclude | main.py:71-72 | every heading line among some lines has its entry among theirs |
| Headings.BlockEntriesMembers | main.py:68-72 | the entries of a page come exactly from lines of its text blocks |
| Headings.PageEntriesMembers | main.py:66-72 | the candidates are exactly the line entries of every page, numbered from 1 |
| Headings.PageEntriesSorted | main.py:66-98 | candidate page numbers lie in 1..number of pages and never decrease |
| Headings.ScanLine | main.py:72-99 | one line's step appends its entry iff its lower-cased text is unseen, and records that text |
| Headings.ScanLines | main.py:71-99 | the loop over a block's lines filters that block's entries into the outline |
| Headings.ScanBlocks | main.py:68-99 | the loop over a page's blocks filters that page's entries into the outline |
| Headings.ExtractOutline | main.py:44-104 | the source's loops give exactly Outline(doc), the errors included |
| Headings.OutlineDistinct | main.py:93-99 | no two outline entries have case-insensitively equal text |
| Headings.OutlineFirstOccurrences | main.py:93-99 | an entry is in the outline iff it is the first candidate in reading order with its lower-cased text; every candidate's text is represented |
| Headings.OutlineEntriesAreHeadings | main.py:84-98 | each entry comes from a non-empty bold-or-larger-than-12 line of its page; its level is classify_level of the line's largest size; its text is not the title, ignoring case |
| Headings.OutlineReadingOrder | main.py:66-98 | page numbers are within 1..number of pages and non-decreasing along the outline |
| Headings.OutlineComplete | main.py:78-99 | every heading line of the document has its lower-cased text in the outline |
| Headings.LineEntriesPrefix | main.py:71-72 | the entries of the first n lines start the entries of all the lines |
| Headings.BlockEntriesPrefix | main.py:68-72 | the entries of the first n blocks start the entries of all the blocks |
| Headings.PageEntriesPrefix | main.py:66-72 | the entries of the first n pages start the candidates of the document |
| Headings.EntriesBeforePrefix | main.py:66-93 | the candidates of the lines before a line, followed by that line's entry, start the document's candidates |
| Headings.FirstKept | main.py:93-99 | an entry whose lower-cased text no earlier candidate has is kept |
| Headings.OutlineIncludesFirst | main.py:66-99 | a heading line whose lower-cased text no earlier line's entry has puts its own entry, unchanged, in the outline |

## Left out

- `fitz.open` and `page.get_text("dict")` belong to the PDF layout library, a foreign library. Their result is the input datatype `seq<Page>`.
- The first pass that collects font sizes and `mean` (main.py:52-63) is left out because the mean is floating point and no decision uses it. Only its failure on a document without spans is modelled, as `Err(NoFontSizes)` through `HasSpans`.
- `main()` globs `input/*.pdf`, writes files and calls `json.dump`. That is I/O plumbing and is left out.
- The sort at main.py:26 is left out; only its result is modelled: `Greatest` under the (size, text) order, whose text is unique by `TitleUnique`.
- `str.lower` is ASCII-only here, and the model has no Unicode case folding.
- Sizes and coordinates are exact reals, so float rounding is not modelled.
- `Layout.IsCentered`: its body compares the sum of the box edges with the page width and doubled tolerance, and its contract states the source's halved-midpoint form. The two agree over exact reals but not under float rounding.
- `Title.ExtractTitle` and `Headings.ExtractOutline`: the inner loops are separate methods (`CollectLines`, `CollectCandidates`, `ScanBlocks`, `ScanLines`, `ScanLine`). Each method keeps the source's order of steps and updates.
