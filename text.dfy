/** The Python string built-ins the heading heuristic relies on: str.isspace,
    str.lower, str.strip, str.split() without a separator and " ".join, and
    the clean_text helper built from the last two. */
module PyText {

  /** The characters for which Python's str.isspace() holds. str.split() and
      str.strip() without arguments treat exactly these as whitespace. */
  predicate IsSpace(c: char)
  {
    ('\t' <= c <= '\r') || ('\U{1c}' <= c <= '\U{1f}') || c == ' '
    || c == '\U{85}' || c == '\U{a0}' || c == '\U{1680}'
    || ('\U{2000}' <= c <= '\U{200a}') || c == '\U{2028}' || c == '\U{2029}'
    || c == '\U{202f}' || c == '\U{205f}' || c == '\U{3000}'
  }

  predicate NoSpace(s: string)
  {
    forall i :: 0 <= i < |s| ==> !IsSpace(s[i])
  }

  predicate AllSpace(s: string)
  {
    forall i :: 0 <= i < |s| ==> IsSpace(s[i])
  }

  /** No whitespace at either end. */
  predicate Trimmed(s: string)
  {
    s == [] || (!IsSpace(s[0]) && !IsSpace(s[|s| - 1]))
  }

  /** Every whitespace character is a plain space and is followed by a
      non-whitespace character. */
  predicate SingleSpaced(s: string)
  {
    forall i :: 0 <= i < |s| && IsSpace(s[i]) ==> s[i] == ' ' && (i + 1 < |s| ==> !IsSpace(s[i + 1]))
  }

  /** The shape of clean_text's output. */
  predicate Normalised(s: string)
  {
    Trimmed(s) && SingleSpaced(s)
  }

  /** str.lower(), restricted to ASCII letters. */
  function LowerChar(c: char): char
  {
    if 'A' <= c <= 'Z' then (c as int + 32) as char else c
  }

  function Lower(s: string): string
  {
    seq(|s|, i requires 0 <= i < |s| => LowerChar(s[i]))
  }

  /** Lower-casing keeps the length, turns each ASCII capital into its own
      small letter, changes nothing else, and so is idempotent. */
  lemma LowerSpec(s: string)
    ensures |Lower(s)| == |s|
    ensures forall i :: 0 <= i < |s| && 'A' <= s[i] <= 'Z' ==>
              'a' <= Lower(s)[i] <= 'z' && Lower(s)[i] as int == s[i] as int + 32
    ensures forall i :: 0 <= i < |s| ==> !('A' <= Lower(s)[i] <= 'Z')
    ensures forall i :: 0 <= i < |s| && !('A' <= s[i] <= 'Z') ==> Lower(s)[i] == s[i]
    ensures Lower(Lower(s)) == Lower(s)
  {
  }

  /** str.lstrip(): drops the leading whitespace and nothing else. */
  function StripLeft(s: string): string
  {
    if s != [] && IsSpace(s[0]) then StripLeft(s[1..]) else s
  }

  /** str.rstrip(): drops the trailing whitespace and nothing else. */
  function StripRight(s: string): string
  {
    if s != [] && IsSpace(s[|s| - 1]) then StripRight(s[..|s| - 1]) else s
  }

  /** What lstrip leaves is a suffix of its input, everything it dropped is
      whitespace, and it stops at the first non-whitespace character. */
  lemma {:induction false} StripLeftSuffix(s: string)
    ensures var r := StripLeft(s);
      |r| <= |s| && r == s[|s| - |r|..] && AllSpace(s[..|s| - |r|]) && (r == [] || !IsSpace(r[0]))
  {
    if s != [] && IsSpace(s[0]) {
      StripLeftSuffix(s[1..]);
      var r := StripLeft(s[1..]);
      assert s[1..][..|s| - 1 - |r|] == s[1..|s| - |r|];
    }
  }

  /** What rstrip leaves is a prefix of its input, everything it dropped is
      whitespace, and it stops at the last non-whitespace character. */
  lemma {:induction false} StripRightPrefix(s: string)
    ensures var r := StripRight(s);
      |r| <= |s| && r == s[..|r|] && AllSpace(s[|r|..]) && (r == [] || !IsSpace(r[|r| - 1]))
  {
    if s != [] && IsSpace(s[|s| - 1]) {
      StripRightPrefix(s[..|s| - 1]);
      var r := StripRight(s[..|s| - 1]);
      assert s[|r|..] == s[..|s| - 1][|r|..] + [s[|s| - 1]];
    }
  }

  /** str.strip(). */
  function Strip(s: string): (r: string)
    ensures Trimmed(r)
  {
    StripLeftSuffix(s);
    StripRightPrefix(StripLeft(s));
    StripRight(StripLeft(s))
  }

  /** str.strip() keeps the slice s[i..j] left once the whitespace before i
      and after j is removed. */
  lemma StripSlice(s: string)
    ensures exists i, j :: 0 <= i <= j <= |s| && Strip(s) == s[i..j] && AllSpace(s[..i]) && AllSpace(s[j..])
  {
    var l := StripLeft(s);
    var r := StripRight(l);
    StripLeftSuffix(s);
    StripRightPrefix(l);
    var i := |s| - |l|;
    assert r == s[i..i + |r|];
    assert s[i + |r|..] == l[|r|..];
  }

  /** Stripping a string that has no whitespace at its ends leaves it alone,
      so stripping twice is stripping once. */
  lemma {:induction false} StripTrimmed(s: string)
    requires Trimmed(s)
    ensures Strip(s) == s
  {
  }

  lemma StripIdempotent(s: string)
    ensures Strip(Strip(s)) == Strip(s)
  {
    StripTrimmed(Strip(s));
  }

  /** The longest prefix of s free of whitespace. */
  function Word(s: string): (w: string)
    ensures |w| <= |s| && w == s[..|w|] && NoSpace(w)
    ensures |w| == |s| || IsSpace(s[|w|])
  {
    if s == [] || IsSpace(s[0]) then []
    else
      var t := Word(s[1..]);
      assert s[1..][|t|..] == s[1 + |t|..];
      [s[0]] + t
  }

  /** str.split() without a separator: the maximal runs of non-whitespace,
      in order. */
  function Split(s: string): (ws: seq<string>)
    ensures forall k :: 0 <= k < |ws| ==> ws[k] != [] && NoSpace(ws[k])
    decreases |s|
  {
    if s == [] then []
    else if IsSpace(s[0]) then Split(s[1..])
    else
      var w := Word(s);
      [w] + Split(s[|w|..])
  }

  /** " ".join(ws). */
  function Join(ws: seq<string>): string
  {
    if ws == [] then []
    else if |ws| == 1 then ws[0]
    else ws[0] + " " + Join(ws[1..])
  }

  /** clean_text: every run of whitespace becomes one space, and the ends are
      trimmed. */
  function CleanText(s: string): (r: string)
    ensures Normalised(r)
  {
    JoinNormalised(Split(s));
    Join(Split(s))
  }

  /** A string without whitespace is one word of split(). */
  lemma SplitWord(w: string)
    requires w != [] && NoSpace(w)
    ensures Split(w) == [w]
  {
    assert w + [] == w;
    WordOfWord(w, []);
    assert w[|w|..] == [];
  }

  /** split() works piecewise across a whitespace boundary: when a ends or b
      starts with whitespace, the words of a + b are the words of a followed
      by the words of b. With SplitWord and SplitEmpty this fixes the words
      of every string: its maximal whitespace-free runs, in order. */
  lemma {:induction false} SplitConcat(a: string, b: string)
    requires a == [] || b == [] || IsSpace(a[|a| - 1]) || IsSpace(b[0])
    ensures Split(a + b) == Split(a) + Split(b)
    decreases |a|, 1
  {
    if a == [] {
      assert a + b == b;
    } else if IsSpace(a[0]) {
      SplitConcatSpace(a, b);
    } else {
      SplitConcatWord(a, b);
    }
  }

  lemma {:induction false} SplitConcatSpace(a: string, b: string)
    requires a != [] && IsSpace(a[0]) && (b == [] || IsSpace(a[|a| - 1]) || IsSpace(b[0]))
    ensures Split(a + b) == Split(a) + Split(b)
    decreases |a|, 0
  {
    var t := a[1..];
    assert (a + b)[1..] == t + b;
    assert t != [] ==> t[|t| - 1] == a[|a| - 1];
    SplitConcat(t, b);
  }

  lemma {:induction false} SplitConcatWord(a: string, b: string)
    requires a != [] && !IsSpace(a[0]) && (b == [] || IsSpace(a[|a| - 1]) || IsSpace(b[0]))
    ensures Split(a + b) == Split(a) + Split(b)
    decreases |a|, 0
  {
    var w := Word(a);
    var t := a[|w|..];
    assert t != [] ==> t[|t| - 1] == a[|a| - 1];
    calc {
      Split(a + b);
    == { WordAppend(a, b); SplitFirstWord(a + b); }
      [w] + Split((a + b)[|w|..]);
    == { DropAppend(a, b, |w|); }
      [w] + Split(t + b);
    == { SplitConcat(t, b); }
      [w] + (Split(t) + Split(b));
    == { ConsAssoc(w, Split(t), Split(b)); }
      ([w] + Split(t)) + Split(b);
    == { SplitFirstWord(a); }
      Split(a) + Split(b);
    }
  }

  lemma DropAppend<T>(a: seq<T>, b: seq<T>, n: nat)
    requires n <= |a|
    ensures (a + b)[n..] == a[n..] + b
  {
  }

  lemma ConsAssoc<T>(x: T, p: seq<T>, q: seq<T>)
    ensures [x] + (p + q) == ([x] + p) + q
  {
  }

  lemma SplitFirstWord(s: string)
    requires s != [] && !IsSpace(s[0])
    ensures Split(s) == [Word(s)] + Split(s[|Word(s)|..])
  {
  }

  lemma {:induction false} WordAppend(a: string, b: string)
    requires a != [] && (b == [] || IsSpace(a[|a| - 1]) || IsSpace(b[0]))
    ensures Word(a + b) == Word(a)
  {
    if !IsSpace(a[0]) {
      assert (a + b)[1..] == a[1..] + b;
      if |a| == 1 {
        assert a[1..] + b == b;
      } else {
        WordAppend(a[1..], b);
      }
    }
  }

  /** The words of a normalised string are found again by splitting on
      whitespace (splitting undoes joining). */
  lemma {:induction false} SplitJoin(ws: seq<string>)
    requires forall k :: 0 <= k < |ws| ==> ws[k] != [] && NoSpace(ws[k])
    ensures Split(Join(ws)) == ws
  {
    if ws == [] {
    } else if |ws| == 1 {
      assert ws[0] + [] == ws[0];
      WordOfWord(ws[0], []);
      assert ws[0][|ws[0]|..] == [];
      assert Join(ws) == ws[0];
    } else {
      var w, rest := ws[0], Join(ws[1..]);
      var s := w + " " + rest;
      assert s == w + (" " + rest);
      WordOfWord(w, " " + rest);
      assert s[|w|..] == " " + rest;
      assert (" " + rest)[1..] == rest;
      SplitJoin(ws[1..]);
      assert Split(s) == [w] + Split(rest);
    }
  }

  lemma {:induction false} WordOfWord(w: string, t: string)
    requires w != [] && NoSpace(w)
    requires t == [] || IsSpace(t[0])
    ensures Word(w + t) == w
  {
    if |w| > 1 {
      assert (w + t)[1..] == w[1..] + t;
      WordOfWord(w[1..], t);
    } else {
      assert (w + t)[1..] == t;
    }
  }

  /** Joining non-empty normalised pieces with single spaces gives a
      non-empty normalised string that starts with the first piece. */
  lemma {:induction false} JoinNormalised(ws: seq<string>)
    requires forall k :: 0 <= k < |ws| ==> ws[k] != [] && Normalised(ws[k])
    ensures Normalised(Join(ws))
    ensures ws != [] ==> Join(ws) != [] && Join(ws)[0] == ws[0][0]
  {
    if |ws| > 1 {
      var w, j := ws[0], Join(ws[1..]);
      JoinNormalised(ws[1..]);
      var s := w + " " + j;
      assert s[|w|] == ' ' && s[|w| + 1] == j[0];
      forall i | 0 <= i < |s| && IsSpace(s[i])
        ensures s[i] == ' ' && (i + 1 < |s| ==> !IsSpace(s[i + 1]))
      {
        if i < |w| {
          assert s[i] == w[i];
          assert i + 1 < |w| ==> s[i + 1] == w[i + 1];
        } else if i > |w| {
          assert s[i] == j[i - |w| - 1];
          assert i + 1 < |s| ==> s[i + 1] == j[i - |w|];
        }
      }
      assert s[|s| - 1] == j[|j| - 1];
    }
  }

  /** clean_text removes every whitespace-only input, and only those. */
  lemma {:induction false} CleanTextEmpty(s: string)
    ensures CleanText(s) == [] <==> AllSpace(s)
  {
    SplitEmpty(s);
    JoinNormalised(Split(s));
  }

  lemma {:induction false} SplitEmpty(s: string)
    ensures Split(s) == [] <==> AllSpace(s)
    decreases |s|
  {
    if s != [] && IsSpace(s[0]) {
      SplitEmpty(s[1..]);
      assert AllSpace(s) <==> AllSpace(s[1..]) by {
        if AllSpace(s[1..]) {
          forall i | 0 <= i < |s| ensures IsSpace(s[i]) {
            if i > 0 { assert s[i] == s[1..][i - 1]; }
          }
        }
      }
    }
  }

  /** clean_text applied twice equals clean_text applied once. */
  lemma CleanTextIdempotent(s: string)
    ensures CleanText(CleanText(s)) == CleanText(s)
  {
    SplitJoin(Split(s));
  }

  /** The strings clean_text leaves unchanged are exactly the normalised ones. */
  lemma CleanTextFixpoint(s: string)
    ensures CleanText(s) == s <==> Normalised(s)
  {
    if Normalised(s) {
      NormalisedIsClean(s);
    }
  }

  lemma {:induction false} NormalisedIsClean(s: string)
    requires Normalised(s)
    ensures CleanText(s) == s
    decreases |s|
  {
    if s != [] {
      var w := Word(s);
      if |w| == |s| {
        assert w == s;
        assert s[|w|..] == [];
        assert Split(s) == [w] + Split([]);
      } else {
        var rest := s[|w| + 1..];
        assert s[|w|] == ' ';
        assert s[|w|..][1..] == rest;
        assert Split(s) == [w] + Split(rest);
        NormalisedTail(s, |w| + 1);
        NormalisedIsClean(rest);
        assert Split(rest) != [];
        assert s == w + " " + rest;
      }
    }
  }

  /** What follows the first space of a normalised string is normalised. */
  lemma NormalisedTail(s: string, i: nat)
    requires Normalised(s) && 0 < i < |s| && IsSpace(s[i - 1])
    ensures Normalised(s[i..])
  {
    var rest := s[i..];
    forall k | 0 <= k < |rest| && IsSpace(rest[k])
      ensures rest[k] == ' ' && (k + 1 < |rest| ==> !IsSpace(rest[k + 1]))
    {
      assert rest[k] == s[i + k];
      assert k + 1 < |rest| ==> rest[k + 1] == s[i + k + 1];
    }
    assert rest[0] == s[i] && rest[|rest| - 1] == s[|s| - 1];
  }
}
