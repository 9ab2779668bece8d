/**
 Matching a phrase in a text by meaning and not by typography: spaces, dashes and quotes are folded,
 runs of white space count as one space, and case is ignored. `lower` lower-cases one character.
 */
module TextMatch {
  import opened Text

  function FoldChar(c: char): char {
    if c == '\U{a0}' || c == '\U{1680}' || '\U{2000}' <= c <= '\U{200a}'
       || c == '\U{202f}' || c == '\U{205f}' || c == '\U{3000}' then ' '
    else if '\U{2010}' <= c <= '\U{2015}' || c == '\U{2212}' then '-'
    else if c == '\U{2018}' || c == '\U{2019}' || c == '\U{201b}' || c == '\U{2032}' then '\''
    else if c == '\U{201c}' || c == '\U{201d}' || c == '\U{201f}' || c == '\U{2033}' then '"'
    else c
  }

  function Mapped(s: string, f: char -> char): (r: string)
    ensures |r| == |s| && forall i :: 0 <= i < |s| ==> r[i] == f(s[i])
  {
    seq(|s|, i requires 0 <= i < |s| => f(s[i]))
  }

  /** One space for every run of white space; `inRun` says a run has begun just before. */
  function Collapsed(inRun: bool, s: string): string
    decreases |s|
  {
    if s == "" then ""
    else if IsSpace(s[0]) then (if inRun then "" else " ") + Collapsed(true, s[1..])
    else [s[0]] + Collapsed(false, s[1..])
  }

  function Normalize(s: string, lower: char -> char): string {
    Mapped(Collapsed(false, Mapped(s, FoldChar)), lower)
  }

  predicate OccursAt(s: string, part: string, i: int) {
    0 <= i <= |s| - |part| && s[i..i + |part|] == part
  }

  predicate Contains(s: string, part: string) {
    exists i :: 0 <= i <= |s| && OccursAt(s, part, i)
  }

  predicate TextIncludes(haystack: string, needle: string, lower: char -> char) {
    Contains(Normalize(haystack, lower), Normalize(needle, lower))
  }

  // ---- Collapsing in two parts ----

  /** Whether a run is open after s. */
  function RunAfter(inRun: bool, s: string): bool {
    if s == "" then inRun else IsSpace(s[|s| - 1])
  }

  lemma {:induction false} CollapseConcat(inRun: bool, a: string, b: string)
    ensures Collapsed(inRun, a + b) == Collapsed(inRun, a) + Collapsed(RunAfter(inRun, a), b)
    decreases |a|
  {
    if a == "" {
      assert a + b == b;
    } else {
      assert (a + b)[1..] == a[1..] + b;
      CollapseConcat(IsSpace(a[0]), a[1..], b);
    }
  }

  lemma {:induction false} RunLeavesASpace(inRun: bool, a: string)
    requires RunAfter(inRun, a) && !inRun
    ensures var r := Collapsed(inRun, a);
            r != "" && r[|r| - 1] == ' '
    decreases |a|
  {
    var n := |a| - 1;
    assert a == a[..n] + [a[n]];
    CollapseConcat(inRun, a[..n], [a[n]]);
    if RunAfter(inRun, a[..n]) {
      RunLeavesASpace(inRun, a[..n]);
      assert Collapsed(true, [a[n]]) == "";
    } else {
      assert Collapsed(false, [a[n]]) == " ";
    }
  }

  lemma {:induction false} BlankCollapses(inRun: bool, w: string)
    requires w != "" && Blank(w)
    ensures Collapsed(inRun, w) == if inRun then "" else " "
    decreases |w|
  {
    if |w| > 1 {
      BlankCollapses(true, w[1..]);
    }
  }

  // ---- Folding and mapping ----

  lemma MappedConcat(a: string, b: string, f: char -> char)
    ensures Mapped(a + b, f) == Mapped(a, f) + Mapped(b, f)
  {
  }

  lemma FoldKeepsSpaces(c: char)
    ensures IsSpace(FoldChar(c)) <==> IsSpace(c)
    ensures FoldChar(FoldChar(c)) == FoldChar(c)
  {
  }

  lemma FoldedBlank(w: string)
    requires Blank(w)
    ensures Blank(Mapped(w, FoldChar))
  {
    forall i | 0 <= i < |w|
      ensures IsSpace(Mapped(w, FoldChar)[i])
    {
      FoldKeepsSpaces(w[i]);
    }
  }

  lemma ContainsMiddle(a: string, part: string, b: string)
    ensures Contains(a + part + b, part)
  {
    assert OccursAt(a + part + b, part, |a|);
  }

  lemma ContainsMapped(s: string, part: string, f: char -> char)
    requires Contains(s, part)
    ensures Contains(Mapped(s, f), Mapped(part, f))
  {
    var i :| 0 <= i <= |s| && OccursAt(s, part, i);
    forall k | 0 <= k < |part|
      ensures Mapped(s, f)[i..i + |part|][k] == Mapped(part, f)[k]
    {
      assert part[k] == s[i..i + |part|][k] == s[i + k];
    }
    assert OccursAt(Mapped(s, f), Mapped(part, f), i);
  }

  // ---- A raw occurrence always matches ----

  /** A run that the part continues gives it its leading space all the same. */
  lemma SharedSpace(a: string, part: string) returns (before: string)
    ensures Collapsed(false, a) + Collapsed(RunAfter(false, a), part) == before + Collapsed(false, part)
  {
    var whole := Collapsed(false, a);
    if RunAfter(false, a) && part != "" && IsSpace(part[0]) {
      RunLeavesASpace(false, a);
      before := whole[..|whole| - 1];
      assert Collapsed(false, part) == " " + Collapsed(true, part);
      assert whole == before + " ";
    } else {
      before := whole;
    }
  }

  /** Even an occurrence that starts or ends inside a run of white space. */
  lemma CollapseKeepsOccurrences(a: string, part: string, b: string)
    ensures Contains(Collapsed(false, a + part + b), Collapsed(false, part))
  {
    CollapseConcat(false, a + part, b);
    CollapseConcat(false, a, part);
    var before := SharedSpace(a, part);
    ContainsMiddle(before, Collapsed(false, part), Collapsed(RunAfter(false, a + part), b));
  }

  lemma RawOccurrenceMatches(a: string, needle: string, b: string, lower: char -> char)
    ensures TextIncludes(a + needle + b, needle, lower)
  {
    MappedConcat(a + needle, b, FoldChar);
    MappedConcat(a, needle, FoldChar);
    var folded := Mapped(needle, FoldChar);
    CollapseKeepsOccurrences(Mapped(a, FoldChar), folded, Mapped(b, FoldChar));
    ContainsMapped(Collapsed(false, Mapped(a + needle + b, FoldChar)), Collapsed(false, folded), lower);
  }

  // ---- What the matcher cannot see ----

  const SPACES := {
    ' ', '\U{a0}', '\U{1680}', '\U{2000}', '\U{2001}', '\U{2002}', '\U{2003}', '\U{2004}', '\U{2005}', '\U{2006}',
    '\U{2007}', '\U{2008}', '\U{2009}', '\U{200a}', '\U{202f}', '\U{205f}', '\U{3000}'}
  const DASHES := {'-', '\U{2010}', '\U{2011}', '\U{2012}', '\U{2013}', '\U{2014}', '\U{2015}', '\U{2212}'}
  const SINGLE_QUOTES := {'\'', '\U{2018}', '\U{2019}', '\U{201b}', '\U{2032}'}
  const DOUBLE_QUOTES := {'"', '\U{201c}', '\U{201d}', '\U{201f}', '\U{2033}'}

  /** The same character, or two spaces, two dashes, two single or two double quotes. */
  predicate SameClass(c: char, d: char) {
    || c == d
    || (c in SPACES && d in SPACES) || (c in DASHES && d in DASHES)
    || (c in SINGLE_QUOTES && d in SINGLE_QUOTES) || (c in DOUBLE_QUOTES && d in DOUBLE_QUOTES)
  }

  /** The character of a class that a keyboard has. */
  function Keyboard(c: char): char {
    if c in SPACES then ' '
    else if c in DASHES then '-'
    else if c in SINGLE_QUOTES then '\''
    else if c in DOUBLE_QUOTES then '"'
    else c
  }

  lemma FoldIsKeyboard(c: char)
    ensures FoldChar(c) == Keyboard(c)
  {
  }

  /** Nothing folds but these four classes, and each of them to one character. */
  lemma FoldsAlikeIff(c: char, d: char)
    ensures FoldChar(c) == FoldChar(d) <==> SameClass(c, d)
  {
    FoldIsKeyboard(c);
    FoldIsKeyboard(d);
  }

  /** Typography: characters of one class are one character. */
  lemma TypographyIsInvisible(s: string, t: string, lower: char -> char)
    requires |s| == |t| && forall i :: 0 <= i < |s| ==> SameClass(s[i], t[i])
    ensures Normalize(s, lower) == Normalize(t, lower)
  {
    forall i | 0 <= i < |s|
      ensures FoldChar(s[i]) == FoldChar(t[i])
    {
      FoldsAlikeIff(s[i], t[i]);
    }
    assert Mapped(s, FoldChar) == Mapped(t, FoldChar);
  }

  lemma CollapseStretch(a: string, w: string, w': string, b: string)
    requires w != "" && w' != "" && Blank(w) && Blank(w')
    ensures Collapsed(false, a + w + b) == Collapsed(false, a + w' + b)
  {
    CollapseConcat(false, a + w, b);
    CollapseConcat(false, a + w', b);
    CollapseConcat(false, a, w);
    CollapseConcat(false, a, w');
    BlankCollapses(RunAfter(false, a), w);
    BlankCollapses(RunAfter(false, a), w');
  }

  /** Wrapping: any white space is any other. */
  lemma WrappingIsInvisible(a: string, w: string, w': string, b: string, lower: char -> char)
    requires w != "" && w' != "" && Blank(w) && Blank(w')
    ensures Normalize(a + w + b, lower) == Normalize(a + w' + b, lower)
  {
    FoldedBlank(w);
    FoldedBlank(w');
    MappedConcat(a + w, b, FoldChar);
    MappedConcat(a, w, FoldChar);
    MappedConcat(a + w', b, FoldChar);
    MappedConcat(a, w', FoldChar);
    CollapseStretch(Mapped(a, FoldChar), Mapped(w, FoldChar), Mapped(w', FoldChar), Mapped(b, FoldChar));
  }

  // ---- Normal forms ----

  /** Lower-casing keeps white space apart from the rest, settles at once, and makes nothing typographic. */
  ghost predicate Lowers(lower: char -> char) {
    && lower(' ') == ' '
    && forall c: char :: (IsSpace(lower(c)) <==> IsSpace(c)) && lower(lower(c)) == lower(c)
                         && FoldChar(lower(FoldChar(c))) == lower(FoldChar(c))
  }

  /** Already collapsed: white space is single spaces, none of them in a row or after an open run. */
  predicate Settled(inRun: bool, s: string) {
    && (forall i :: 0 <= i < |s| && IsSpace(s[i]) ==> s[i] == ' ')
    && (forall i :: 0 < i < |s| && IsSpace(s[i]) ==> !IsSpace(s[i - 1]))
    && (inRun && s != "" ==> !IsSpace(s[0]))
  }

  lemma {:induction false} CollapsedIsSettled(inRun: bool, s: string)
    ensures Settled(inRun, Collapsed(inRun, s))
    decreases |s|
  {
    if s != "" {
      CollapsedIsSettled(IsSpace(s[0]), s[1..]);
    }
  }

  lemma {:induction false} SettledStays(inRun: bool, s: string)
    requires Settled(inRun, s)
    ensures Collapsed(inRun, s) == s
    decreases |s|
  {
    if s != "" {
      assert s == [s[0]] + s[1..];
      SettledStays(IsSpace(s[0]), s[1..]);
    }
  }

  lemma {:induction false} CollapsedDrawsFrom(inRun: bool, s: string, i: nat)
    requires i < |Collapsed(inRun, s)|
    ensures Collapsed(inRun, s)[i] == ' ' || Collapsed(inRun, s)[i] in s
    decreases |s|
  {
    var c := if IsSpace(s[0]) then (if inRun then "" else " ") else [s[0]];
    if i >= |c| {
      CollapsedDrawsFrom(IsSpace(s[0]), s[1..], i - |c|);
    }
  }

  lemma NormalizeIsIdempotent(s: string, lower: char -> char)
    requires Lowers(lower)
    ensures Normalize(Normalize(s, lower), lower) == Normalize(s, lower)
  {
    var folded := Mapped(s, FoldChar);
    var collapsed := Collapsed(false, folded);
    var r := Normalize(s, lower);
    CollapsedIsSettled(false, folded);
    forall i | 0 <= i < |r|
      ensures FoldChar(r[i]) == r[i] && lower(r[i]) == r[i]
      ensures IsSpace(r[i]) <==> IsSpace(collapsed[i])
      ensures IsSpace(r[i]) ==> r[i] == ' '
    {
      CollapsedDrawsFrom(false, folded, i);
      if collapsed[i] in folded {
        var k :| 0 <= k < |folded| && folded[k] == collapsed[i];
        FoldKeepsSpaces(s[k]);
        assert FoldChar(lower(FoldChar(s[k]))) == lower(FoldChar(s[k]));
      }
    }
    assert Mapped(r, FoldChar) == r;
    assert Settled(false, r);
    SettledStays(false, r);
    assert Mapped(r, lower) == r;
  }

  // ---- What else the matcher sees ----

  predicate White(c: char) {
    c in SPACES || c in {'\t', '\n', '\U{b}', '\U{c}', '\r', '\U{2028}', '\U{2029}', '\U{feff}'}
  }

  lemma SpaceIsWhite(c: char)
    ensures IsSpace(c) <==> White(c)
  {
  }

  /** Behind the white space at the front. */
  function SkipWhite(s: string): (r: string)
    ensures |r| <= |s| && (s != "" && White(s[0]) ==> |r| < |s|)
    ensures r != "" ==> !White(r[0])
  {
    if s != "" && White(s[0]) then SkipWhite(s[1..]) else s
  }

  /** Character by character alike up to typography and case, and white space where there is white space. */
  predicate Alike(s: string, t: string, lower: char -> char)
    decreases |s|
  {
    if s == "" || t == "" then s == "" && t == ""
    else if White(s[0]) || White(t[0]) then White(s[0]) && White(t[0]) && Alike(SkipWhite(s), SkipWhite(t), lower)
    else lower(Keyboard(s[0])) == lower(Keyboard(t[0])) && Alike(s[1..], t[1..], lower)
  }

  lemma {:induction false} RunSkipped(s: string)
    ensures Collapsed(true, Mapped(s, FoldChar)) == Collapsed(false, Mapped(SkipWhite(s), FoldChar))
    decreases |s|
  {
    if s != "" {
      SpaceIsWhite(s[0]);
      FoldKeepsSpaces(s[0]);
      assert Mapped(s, FoldChar)[1..] == Mapped(s[1..], FoldChar);
      if White(s[0]) {
        RunSkipped(s[1..]);
      }
    }
  }

  lemma NormalizeFromFront(s: string, lower: char -> char)
    requires s != "" && lower(' ') == ' '
    ensures Normalize(s, lower)
         == if White(s[0]) then " " + Normalize(SkipWhite(s), lower)
            else [lower(Keyboard(s[0]))] + Normalize(s[1..], lower)
  {
    var folded := Mapped(s, FoldChar);
    SpaceIsWhite(s[0]);
    FoldKeepsSpaces(s[0]);
    FoldIsKeyboard(s[0]);
    assert folded[1..] == Mapped(s[1..], FoldChar);
    if White(s[0]) {
      RunSkipped(s[1..]);
      assert Collapsed(false, folded) == " " + Collapsed(false, Mapped(SkipWhite(s), FoldChar));
      MappedConcat(" ", Collapsed(false, Mapped(SkipWhite(s), FoldChar)), lower);
      assert Mapped(" ", lower) == " ";
    } else {
      assert Collapsed(false, folded) == [Keyboard(s[0])] + Collapsed(false, Mapped(s[1..], FoldChar));
      MappedConcat([Keyboard(s[0])], Collapsed(false, Mapped(s[1..], FoldChar)), lower);
      assert Mapped([Keyboard(s[0])], lower) == [lower(Keyboard(s[0]))];
    }
  }

  lemma NormalizeIsNonEmpty(s: string, lower: char -> char)
    requires lower(' ') == ' '
    ensures Normalize(s, lower) == "" <==> s == ""
  {
    if s != "" {
      NormalizeFromFront(s, lower);
    }
  }

  lemma NotWhiteInNormalForm(c: char, lower: char -> char)
    requires Lowers(lower) && !White(c)
    ensures lower(Keyboard(c)) != ' '
  {
    SpaceIsWhite(c);
    FoldKeepsSpaces(c);
    FoldIsKeyboard(c);
    assert IsSpace(lower(FoldChar(c))) <==> IsSpace(FoldChar(c));
  }

  lemma HeadAndTail(a: char, b: char, x: string, y: string)
    ensures [a] + x == [b] + y <==> a == b && x == y
  {
    if [a] + x == [b] + y {
      assert ([a] + x)[0] == a && ([b] + y)[0] == b;
      assert ([a] + x)[1..] == x && ([b] + y)[1..] == y;
    }
  }

  /** One normal form means alike, and nothing coarser: the matcher sees every other difference. */
  lemma {:induction false} SameNormalFormIff(s: string, t: string, lower: char -> char)
    requires Lowers(lower)
    ensures Normalize(s, lower) == Normalize(t, lower) <==> Alike(s, t, lower)
    decreases |s|
  {
    NormalizeIsNonEmpty(s, lower);
    NormalizeIsNonEmpty(t, lower);
    if s != "" && t != "" {
      NormalizeFromFront(s, lower);
      NormalizeFromFront(t, lower);
      if White(s[0]) && White(t[0]) {
        HeadAndTail(' ', ' ', Normalize(SkipWhite(s), lower), Normalize(SkipWhite(t), lower));
        SameNormalFormIff(SkipWhite(s), SkipWhite(t), lower);
      } else if White(s[0]) {
        NotWhiteInNormalForm(t[0], lower);
        assert Normalize(s, lower)[0] == ' ' && Normalize(t, lower)[0] != ' ';
      } else if White(t[0]) {
        NotWhiteInNormalForm(s[0], lower);
        assert Normalize(t, lower)[0] == ' ' && Normalize(s, lower)[0] != ' ';
      } else {
        HeadAndTail(lower(Keyboard(s[0])), lower(Keyboard(t[0])), Normalize(s[1..], lower), Normalize(t[1..], lower));
        SameNormalFormIff(s[1..], t[1..], lower);
      }
    }
  }

  /**
   What a match means, both ways: some spelling of the needle occurs, character for character, in some
   spelling of the text, where two spellings of a string are alike.
   */
  lemma MatchMeansOccurrenceUpToSpelling(haystack: string, needle: string, lower: char -> char)
    requires Lowers(lower)
    ensures TextIncludes(haystack, needle, lower)
            <==> exists a, n, b :: Alike(a + n + b, haystack, lower) && Alike(n, needle, lower)
  {
    if TextIncludes(haystack, needle, lower) {
      var a, n, b := SpellingsOfMatch(haystack, needle, lower);
    }
    if a, n, b :| Alike(a + n + b, haystack, lower) && Alike(n, needle, lower) {
      SpellingsMatch(haystack, needle, a, n, b, lower);
    }
  }

  lemma SpellingsOfMatch(haystack: string, needle: string, lower: char -> char)
    returns (a: string, n: string, b: string)
    requires Lowers(lower) && TextIncludes(haystack, needle, lower)
    ensures Alike(a + n + b, haystack, lower) && Alike(n, needle, lower)
  {
    var h := Normalize(haystack, lower);
    n := Normalize(needle, lower);
    NormalizeIsIdempotent(haystack, lower);
    NormalizeIsIdempotent(needle, lower);
    SameNormalFormIff(h, haystack, lower);
    SameNormalFormIff(n, needle, lower);
    var i :| 0 <= i <= |h| && OccursAt(h, n, i);
    a, b := h[..i], h[i + |n|..];
    assert h == a + n + b;
  }

  lemma SpellingsMatch(haystack: string, needle: string, a: string, n: string, b: string, lower: char -> char)
    requires Lowers(lower) && Alike(a + n + b, haystack, lower) && Alike(n, needle, lower)
    ensures TextIncludes(haystack, needle, lower)
  {
    SameNormalFormIff(a + n + b, haystack, lower);
    SameNormalFormIff(n, needle, lower);
    RawOccurrenceMatches(a, n, b, lower);
  }
}
