/** extract_title: the title guess for a document is the largest centred text
    on its first page (main.py:13-28). */
module Title {
  import opened PyText
  import opened Layout

  /** What extract_title returns when no span qualifies. */
  const Fallback: string := "Untitled Document"

  /** A span's font size must exceed this for the span to be a title candidate. */
  const MinTitleSize: real := 16.0

  /** One entry of the candidates list: the span's size and its stripped text. */
  datatype Candidate = Candidate(size: real, text: string)

  /** Python's a <= b on str: lexicographic by code point, a proper prefix
      coming first. */
  predicate TextLe(a: string, b: string)
  {
    a == [] || (b != [] && (a[0] < b[0] || (a[0] == b[0] && TextLe(a[1..], b[1..]))))
  }

  lemma {:induction false} TextLeReflexive(a: string)
    ensures TextLe(a, a)
  {
    if a != [] {
      TextLeReflexive(a[1..]);
    }
  }

  lemma {:induction false} TextLeTotal(a: string, b: string)
    ensures TextLe(a, b) || TextLe(b, a)
  {
    if a != [] && b != [] && a[0] == b[0] {
      TextLeTotal(a[1..], b[1..]);
    }
  }

  lemma {:induction false} TextLeTransitive(a: string, b: string, c: string)
    requires TextLe(a, b) && TextLe(b, c)
    ensures TextLe(a, c)
  {
    if a != [] && a[0] == b[0] && b[0] == c[0] {
      TextLeTransitive(a[1..], b[1..], c[1..]);
    }
  }

  lemma {:induction false} TextLeAntisymmetric(a: string, b: string)
    requires TextLe(a, b) && TextLe(b, a)
    ensures a == b
  {
    if a != [] {
      TextLeAntisymmetric(a[1..], b[1..]);
      assert a == [a[0]] + a[1..] && b == [b[0]] + b[1..];
    }
  }

  /** Python's <= on (size, text) tuples: size first, then text. */
  predicate CandidateLe(a: Candidate, b: Candidate)
  {
    a.size < b.size || (a.size == b.size && TextLe(a.text, b.text))
  }

  lemma CandidateLeTransitive(a: Candidate, b: Candidate, c: Candidate)
    requires CandidateLe(a, b) && CandidateLe(b, c)
    ensures CandidateLe(a, c)
  {
    if a.size == b.size == c.size {
      TextLeTransitive(a.text, b.text, c.text);
    }
  }

  /** The test a span must pass to enter the candidates list. */
  predicate IsTitleSpan(s: Span, pageWidth: real)
  {
    IsCentered(s, pageWidth) && s.size > MinTitleSize
  }

  function CandidateOf(s: Span): Candidate
  {
    Candidate(s.size, Strip(s.text))
  }

  /** The candidates list as extract_title builds it from the spans it visits,
      in the order it visits them. */
  function TitleCandidates(spans: seq<Span>, pageWidth: real): seq<Candidate>
  {
    if spans == [] then []
    else
      var last := spans[|spans| - 1];
      TitleCandidates(spans[..|spans| - 1], pageWidth) +
      if IsTitleSpan(last, pageWidth) then [CandidateOf(last)] else []
  }

  lemma TitleCandidatesStep(spans: seq<Span>, k: nat, pageWidth: real)
    requires k < |spans|
    ensures TitleCandidates(spans[..k + 1], pageWidth) ==
            TitleCandidates(spans[..k], pageWidth) + if IsTitleSpan(spans[k], pageWidth) then [CandidateOf(spans[k])] else []
  {
    assert spans[..k + 1][..k] == spans[..k];
  }

  /** Visiting two runs of spans one after the other collects the
      candidates of the first run, then those of the second. */
  lemma {:induction false} TitleCandidatesAppend(a: seq<Span>, b: seq<Span>, pageWidth: real)
    ensures TitleCandidates(a + b, pageWidth) == TitleCandidates(a, pageWidth) + TitleCandidates(b, pageWidth)
  {
    if b == [] {
      assert a + b == a;
    } else {
      TitleCandidatesAppend(a, b[..|b| - 1], pageWidth);
      assert (a + b)[..|a + b| - 1] == a + b[..|b| - 1];
    }
  }

  /** The candidates are exactly the (size, stripped text) pairs of the
      centred spans larger than the title threshold. */
  lemma {:induction false} TitleCandidatesMembers(spans: seq<Span>, pageWidth: real, c: Candidate)
    ensures c in TitleCandidates(spans, pageWidth) <==>
            exists s :: s in spans && IsTitleSpan(s, pageWidth) && c == CandidateOf(s)
  {
    if spans != [] {
      var init, last := spans[..|spans| - 1], spans[|spans| - 1];
      TitleCandidatesMembers(init, pageWidth, c);
      assert spans == init + [last];
    }
  }

  /** The head of the list once candidates.sort(reverse=True) has run: a
      candidate no other candidate exceeds in (size, text) order. */
  function Greatest(cs: seq<Candidate>): (g: Candidate)
    requires cs != []
    ensures g in cs
    ensures forall c :: c in cs ==> CandidateLe(c, g)
  {
    var last := cs[|cs| - 1];
    TextLeReflexive(last.text);
    if |cs| == 1 then last
    else
      var init := cs[..|cs| - 1];
      var g := Greatest(init);
      GreatestStep(init, g, last);
      assert cs == init + [last];
      if CandidateLe(g, last) then last else g
  }

  lemma GreatestStep(init: seq<Candidate>, g: Candidate, last: Candidate)
    requires forall c :: c in init ==> CandidateLe(c, g)
    ensures CandidateLe(g, last) ==> forall c :: c in init ==> CandidateLe(c, last)
    ensures !CandidateLe(g, last) ==> CandidateLe(last, g)
  {
    if CandidateLe(g, last) {
      forall c | c in init ensures CandidateLe(c, last) {
        CandidateLeTransitive(c, g, last);
      }
    } else {
      TextLeTotal(g.text, last.text);
    }
  }

  /** extract_title's result for a page, stated on the spans of the page. */
  function PageTitle(p: Page): (r: string)
    ensures Trimmed(r)
  {
    var cs := TitleCandidates(PageSpans(p), p.width);
    if cs == [] then
      assert Fallback[0] == 'U' && Fallback[|Fallback| - 1] == 't';
      Fallback
    else
      var g := Greatest(cs);
      TitleCandidatesMembers(PageSpans(p), p.width, g);
      g.text
  }

  /** extract_title: visits every span of every line of every text block,
      keeps the centred ones larger than the threshold, and returns the text of
      the greatest (size, text) pair, or the fallback. */
  method ExtractTitle(p: Page) returns (title: string)
    ensures title == PageTitle(p)
  {
    var candidates: seq<Candidate> := [];
    var i := 0;
    while i < |p.blocks|
      invariant 0 <= i <= |p.blocks|
      invariant candidates == TitleCandidates(BlockSpans(p.blocks[..i]), p.width)
    {
      BlockSpansSnoc(p.blocks, i);
      if p.blocks[i].TextBlock? {
        candidates := CollectLines(p.blocks[i].lines, p.width, candidates);
        TitleCandidatesAppend(BlockSpans(p.blocks[..i]), LineSpans(p.blocks[i].lines), p.width);
      } else {
        assert BlockSpans(p.blocks[..i + 1]) == BlockSpans(p.blocks[..i]);
      }
      i := i + 1;
    }
    assert p.blocks[..i] == p.blocks;
    if candidates != [] {
      title := Greatest(candidates).text;
    } else {
      title := Fallback;
    }
  }

  /** The loop of extract_title over the lines of one text block. */
  method CollectLines(lines: seq<Line>, pageWidth: real, candidates: seq<Candidate>)
    returns (result: seq<Candidate>)
    ensures result == candidates + TitleCandidates(LineSpans(lines), pageWidth)
  {
    result := candidates;
    var j := 0;
    while j < |lines|
      invariant 0 <= j <= |lines|
      invariant result == candidates + TitleCandidates(LineSpans(lines[..j]), pageWidth)
    {
      result := CollectCandidates(lines[j].spans, pageWidth, result);
      LineSpansSnoc(lines, j);
      TitleCandidatesAppend(LineSpans(lines[..j]), lines[j].spans, pageWidth);
      j := j + 1;
    }
    assert lines[..j] == lines;
  }

  /** The innermost loop of extract_title: appends (size, stripped text) of
      each centred span of one line larger than the threshold, in span order. */
  method CollectCandidates(spans: seq<Span>, pageWidth: real, candidates: seq<Candidate>)
    returns (result: seq<Candidate>)
    ensures result == candidates + TitleCandidates(spans, pageWidth)
  {
    result := candidates;
    var k := 0;
    while k < |spans|
      invariant 0 <= k <= |spans|
      invariant result == candidates + TitleCandidates(spans[..k], pageWidth)
    {
      var span := spans[k];
      TitleCandidatesStep(spans, k, pageWidth);
      if IsTitleSpan(span, pageWidth) {
        result := result + [CandidateOf(span)];
        assert result == candidates + (TitleCandidates(spans[..k], pageWidth) + [CandidateOf(span)]);
      }
      k := k + 1;
    }
    assert spans[..k] == spans;
  }

  /** The fallback when no span of the page is centred and larger than the
      threshold; otherwise the stripped text of such a span of greatest size,
      and among several of that size, of the greatest text. */
  lemma TitleSpec(p: Page)
    ensures (forall s :: s in PageSpans(p) ==> !IsTitleSpan(s, p.width)) ==> PageTitle(p) == Fallback
    ensures (exists s :: s in PageSpans(p) && IsTitleSpan(s, p.width)) ==>
              exists s :: s in PageSpans(p) && IsTitleSpan(s, p.width) && PageTitle(p) == Strip(s.text) &&
                forall t :: t in PageSpans(p) && IsTitleSpan(t, p.width) ==>
                  t.size < s.size || (t.size == s.size && TextLe(Strip(t.text), Strip(s.text)))
  {
    var spans, w := PageSpans(p), p.width;
    var cs := TitleCandidates(spans, w);
    if cs != [] {
      var g := Greatest(cs);
      TitleCandidatesMembers(spans, w, g);
      var s :| s in spans && IsTitleSpan(s, w) && g == CandidateOf(s);
      forall t | t in spans && IsTitleSpan(t, w)
        ensures t.size < s.size || (t.size == s.size && TextLe(Strip(t.text), Strip(s.text)))
      {
        TitleCandidatesMembers(spans, w, CandidateOf(t));
      }
    } else {
      forall s | s in spans ensures !IsTitleSpan(s, w) {
        TitleCandidatesMembers(spans, w, CandidateOf(s));
      }
    }
  }

  /** The greatest candidate is unique: any qualifying span that no other
      qualifying span exceeds in (size, stripped text) order carries the title. */
  lemma TitleUnique(p: Page, s: Span)
    requires s in PageSpans(p) && IsTitleSpan(s, p.width)
    requires forall t :: t in PageSpans(p) && IsTitleSpan(t, p.width) ==> CandidateLe(CandidateOf(t), CandidateOf(s))
    ensures PageTitle(p) == Strip(s.text)
  {
    var spans, w := PageSpans(p), p.width;
    var cs := TitleCandidates(spans, w);
    TitleCandidatesMembers(spans, w, CandidateOf(s));
    var g := Greatest(cs);
    TitleCandidatesMembers(spans, w, g);
    var t :| t in spans && IsTitleSpan(t, w) && g == CandidateOf(t);
    assert CandidateLe(g, CandidateOf(s)) && CandidateLe(CandidateOf(s), g);
    TextLeAntisymmetric(g.text, Strip(s.text));
  }

  /** The title has no whitespace at its ends, so the .strip() that
      extract_outline applies to it changes nothing. */
  lemma TitleStripped(p: Page)
    ensures Strip(PageTitle(p)) == PageTitle(p)
  {
    StripTrimmed(PageTitle(p));
  }
}
