/** Whitespace normalisation as performed by `StringUtils.normalizeSpace` of
    Apache Commons Lang: leading and trailing whitespace is removed and every
    interior run of whitespace becomes a single space. */
module Whitespace {

  /** The characters `Character.isWhitespace` accepts: the space separators
      other than the non-breaking ones, the ASCII controls TAB, LF, VT, FF, CR
      and the four information separators U+001C to U+001F. */
  predicate IsWhitespace(c: char) {
    || c == ' '
    || ('\t' <= c <= '\r')
    || ('\U{1C}' <= c <= '\U{1F}')
    || c == '\U{1680}'
    || ('\U{2000}' <= c <= '\U{2006}')
    || ('\U{2008}' <= c <= '\U{200A}')
    || c == '\U{2028}' || c == '\U{2029}' || c == '\U{205F}' || c == '\U{3000}'
  }

  /** The text of `s` with every whitespace character taken out. */
  function Strip(s: string): string {
    if s == [] then []
    else if IsWhitespace(s[0]) then Strip(s[1..])
    else [s[0]] + Strip(s[1..])
  }

  /** The shape of a normalised string: no whitespace at either end, every
      whitespace character is a plain space, and no two are adjacent. */
  predicate Normalized(s: string) {
    && (s != [] ==> !IsWhitespace(s[0]) && !IsWhitespace(s[|s| - 1]))
    && SingleSpaced(s)
  }

  /** Every whitespace character of `s` is a plain space and no two are adjacent. */
  predicate SingleSpaced(s: string) {
    && (forall i :: 0 <= i < |s| && IsWhitespace(s[i]) ==> s[i] == ' ')
    && (forall i :: 0 <= i < |s| - 1 ==> !IsWhitespace(s[i]) || !IsWhitespace(s[i + 1]))
  }

  /** `s` consists of whitespace only (or is empty). */
  predicate IsBlank(s: string) {
    forall i :: 0 <= i < |s| ==> IsWhitespace(s[i])
  }

  /** Drops the whitespace at the front of `s`. */
  function TrimLeading(s: string): (r: string)
    ensures |r| <= |s|
    ensures r == [] || !IsWhitespace(r[0])
  {
    if s == [] || !IsWhitespace(s[0]) then s else TrimLeading(s[1..])
  }

  /** What `TrimLeading` removes is a whitespace prefix. */
  lemma {:induction false} TrimLeadingSplits(s: string)
    ensures var r := TrimLeading(s); r == s[|s| - |r|..] && IsBlank(s[..|s| - |r|])
    decreases |s|
  {
    if s != [] && IsWhitespace(s[0]) {
      TrimLeadingSplits(s[1..]);
      var r := TrimLeading(s);
      assert s[..|s| - |r|] == [s[0]] + s[1..][..|s| - 1 - |r|];
    }
  }

  /** Copies `s`, replacing each whitespace run by one space, except a run at
      the very end, which is dropped. */
  function Collapse(s: string): (r: string)
    decreases |s|
  {
    if s == [] then []
    else if !IsWhitespace(s[0]) then [s[0]] + Collapse(s[1..])
    else
      var rest := TrimLeading(s);
      if rest == [] then [] else [' '] + Collapse(rest)
  }

  /** The shape `Collapse` gives its result: nothing trails, the first
      character is kept (as a space when it is whitespace), and the result is
      single-spaced. */
  lemma {:induction false} CollapseShape(s: string)
    ensures var r := Collapse(s);
      && (r != [] ==> !IsWhitespace(r[|r| - 1]))
      && (r != [] ==> s != [] && r[0] == (if IsWhitespace(s[0]) then ' ' else s[0]))
      && (s != [] && !IsWhitespace(s[0]) ==> r != [])
      && SingleSpaced(r)
    decreases |s|
  {
    if s == [] {
    } else if !IsWhitespace(s[0]) {
      CollapseShape(s[1..]);
      SingleSpacedCons(s[0], Collapse(s[1..]));
    } else {
      var rest := TrimLeading(s);
      if rest != [] {
        CollapseShape(rest);
        SingleSpacedCons(' ', Collapse(rest));
      }
    }
  }

  /** Putting a character in front keeps a string single-spaced when the
      character is not whitespace, or is a space before a non-whitespace one. */
  lemma SingleSpacedCons(c: char, t: string)
    requires SingleSpaced(t)
    requires !IsWhitespace(c) || (c == ' ' && (t == [] || !IsWhitespace(t[0])))
    ensures SingleSpaced([c] + t) && ([c] + t)[|t|] == (if t == [] then c else t[|t| - 1])
  {
    var r := [c] + t;
    assert forall i :: 0 < i < |r| ==> r[i] == t[i - 1];
  }

  /** `StringUtils.normalizeSpace` on a non-null string. */
  function NormalizeSpace(s: string): (r: string)
    ensures Normalized(r)
    ensures |r| <= |s|
  {
    CollapseShape(TrimLeading(s));
    CollapseLength(TrimLeading(s));
    Collapse(TrimLeading(s))
  }

  lemma {:induction false} CollapseLength(s: string)
    ensures |Collapse(s)| <= |s|
    decreases |s|
  {
    if s == [] {
    } else if !IsWhitespace(s[0]) {
      CollapseLength(s[1..]);
    } else {
      var rest := TrimLeading(s);
      if rest != [] { CollapseLength(rest); }
    }
  }

  lemma {:induction false} StripAppend(a: string, b: string)
    ensures Strip(a + b) == Strip(a) + Strip(b)
    decreases |a|
  {
    if a == [] {
      assert a + b == b;
    } else {
      assert (a + b)[0] == a[0] && (a + b)[1..] == a[1..] + b;
      StripAppend(a[1..], b);
    }
  }

  lemma {:induction false} StripTrimLeading(s: string)
    ensures Strip(TrimLeading(s)) == Strip(s)
    decreases |s|
  {
    if s != [] && IsWhitespace(s[0]) { StripTrimLeading(s[1..]); }
  }

  lemma {:induction false} StripCollapse(s: string)
    ensures Strip(Collapse(s)) == Strip(s)
    decreases |s|
  {
    if s == [] {
    } else if !IsWhitespace(s[0]) {
      StripCollapse(s[1..]);
      StripAppend([s[0]], Collapse(s[1..]));
    } else {
      var rest := TrimLeading(s);
      StripTrimLeading(s);
      if rest != [] {
        StripCollapse(rest);
        StripAppend([' '], Collapse(rest));
      }
    }
  }

  /** Normalisation keeps every non-whitespace character, in order. */
  lemma NormalizeKeepsText(s: string)
    ensures Strip(NormalizeSpace(s)) == Strip(s)
  {
    StripTrimLeading(s);
    StripCollapse(TrimLeading(s));
  }

  lemma {:induction false} StripEmptyIffBlank(s: string)
    ensures Strip(s) == [] <==> forall i :: 0 <= i < |s| ==> IsWhitespace(s[i])
    decreases |s|
  {
    if s != [] {
      StripEmptyIffBlank(s[1..]);
      assert forall i :: 1 <= i < |s| ==> s[i] == s[1..][i - 1];
    }
  }

  /** The result is empty exactly when the input is empty or all whitespace. */
  lemma NormalizeEmptyIffBlank(s: string)
    ensures NormalizeSpace(s) == [] <==> forall i :: 0 <= i < |s| ==> IsWhitespace(s[i])
  {
    NormalizeKeepsText(s);
    StripEmptyIffBlank(s);
    var r := NormalizeSpace(s);
    StripEmptyIffBlank(r);
    if r != [] { assert !IsWhitespace(r[0]); }
  }

  lemma {:induction false} CollapseOfNormalized(s: string)
    requires Normalized(s)
    ensures Collapse(s) == s
    decreases |s|
  {
    if s != [] {
      var t := s[1..];
      if t == [] {
      } else if !IsWhitespace(t[0]) {
        ShapeTail(s, 1);
        CollapseOfNormalized(t);
      } else {
        assert |s| > 2 by { assert !IsWhitespace(s[|s| - 1]); }
        assert !IsWhitespace(s[2]);
        var u := s[2..];
        assert t[1..] == u;
        assert TrimLeading(t) == u by {
          assert TrimLeading(t) == TrimLeading(u);
          assert !IsWhitespace(u[0]);
        }
        assert Collapse(t) == [' '] + Collapse(u);
        ShapeTail(s, 2);
        CollapseOfNormalized(u);
        assert t == [' '] + u;
      }
    }
  }

  /** A suffix of a normalised string that starts after a non-whitespace
      character (or at a non-whitespace one) is normalised. */
  lemma ShapeTail(s: string, k: nat)
    requires Normalized(s) && 0 < k <= |s|
    requires k < |s| ==> !IsWhitespace(s[k])
    ensures Normalized(s[k..])
  {
    var t := s[k..];
    assert forall i :: 0 <= i < |t| ==> t[i] == s[k + i];
  }

  /** A string already in normal form is left as it is. */
  lemma NormalizeFixesNormalized(s: string)
    requires Normalized(s)
    ensures NormalizeSpace(s) == s
  {
    assert TrimLeading(s) == s;
    CollapseOfNormalized(s);
  }

  /** Normalising twice is the same as normalising once. */
  lemma NormalizeIdempotent(s: string)
    ensures NormalizeSpace(NormalizeSpace(s)) == NormalizeSpace(s)
  {
    NormalizeFixesNormalized(NormalizeSpace(s));
  }

  lemma {:induction false} TrimLeadingRun(w: string, t: string)
    requires IsBlank(w)
    requires t == [] || !IsWhitespace(t[0])
    ensures TrimLeading(w + t) == t
    decreases |w|
  {
    if w != [] {
      assert (w + t)[1..] == w[1..] + t;
      TrimLeadingRun(w[1..], t);
    }
  }

  /** A whitespace run before more text becomes one space; at the end it goes. */
  lemma CollapseRun(w: string, t: string)
    requires w != [] && IsBlank(w)
    requires t == [] || !IsWhitespace(t[0])
    ensures Collapse(w + t) == if t == [] then [] else [' '] + Collapse(t)
  {
    assert (w + t)[0] == w[0];
    TrimLeadingRun(w, t);
  }

  /** `w` holds no whitespace. */
  predicate IsWord(w: string) {
    forall i :: 0 <= i < |w| ==> !IsWhitespace(w[i])
  }

  lemma {:induction false} CollapseWordThen(w: string, t: string)
    requires IsWord(w)
    ensures Collapse(w + t) == w + Collapse(t)
    decreases |w|
  {
    if w != [] {
      var c, w' := w[0], w[1..];
      assert IsWord(w') by { assert forall i :: 0 <= i < |w'| ==> w'[i] == w[i + 1]; }
      CollapseWordThen(w', t);
      assert (w + t)[0] == c && (w + t)[1..] == w' + t;
      assert Collapse(w + t) == [c] + Collapse(w' + t);
      assert [c] + (w' + Collapse(t)) == ([c] + w') + Collapse(t);
      assert [c] + w' == w;
    } else {
      assert w + t == t && w + Collapse(t) == Collapse(t);
    }
  }

  /** Whitespace in front of any string is trimmed along with the string's own. */
  lemma {:induction false} TrimLeadingBlank(lead: string, s: string)
    requires IsBlank(lead)
    ensures TrimLeading(lead + s) == TrimLeading(s)
    decreases |lead|
  {
    if lead == [] {
      assert lead + s == s;
    } else {
      assert (lead + s)[0] == lead[0] && (lead + s)[1..] == lead[1..] + s;
      TrimLeadingBlank(lead[1..], s);
    }
  }

  /** The following three lemmas pin `NormalizeSpace` down on every input:
      any string is a blank prefix, then either nothing or a non-empty word,
      then a whitespace run and the rest. */

  /** Leading whitespace does not change the normal form. */
  lemma NormalizeIgnoresLeading(lead: string, s: string)
    requires IsBlank(lead)
    ensures NormalizeSpace(lead + s) == NormalizeSpace(s)
  {
    TrimLeadingBlank(lead, s);
  }

  /** A string without whitespace is its own normal form. */
  lemma NormalizeWord(w: string)
    requires IsWord(w)
    ensures NormalizeSpace(w) == w
  {
    CollapseWordThen(w, []);
    assert w + [] == w;
  }

  /** After a word, a whitespace run becomes exactly one space when more text
      follows and disappears at the end; the rest is normalised in turn. */
  lemma NormalizeWordThenRun(w: string, gap: string, t: string)
    requires IsWord(w) && w != [] && IsBlank(gap) && gap != []
    requires t == [] || !IsWhitespace(t[0])
    ensures NormalizeSpace(w + gap + t) == if t == [] then w else w + " " + NormalizeSpace(t)
  {
    var s := w + (gap + t);
    assert w + gap + t == s;
    assert s[0] == w[0];
    assert TrimLeading(s) == s;
    CollapseWordThen(w, gap + t);
    CollapseRun(gap, t);
    assert TrimLeading(t) == t;
    if t == [] {
      assert w + [] == w;
    } else {
      assert w + ([' '] + Collapse(t)) == w + " " + Collapse(t);
    }
  }

  /** Two words with whitespace before, between and after them normalise to
      the two words joined by one space. */
  lemma NormalizeTwoWords(lead: string, a: string, gap: string, b: string, trail: string)
    requires IsBlank(lead) && IsBlank(gap) && IsBlank(trail)
    requires IsWord(a) && IsWord(b) && a != [] && b != [] && gap != []
    ensures NormalizeSpace(lead + a + gap + b + trail) == a + " " + b
  {
    var body := a + gap + b + trail;
    assert lead + a + gap + b + trail == lead + body;
    TrimLeadingRun(lead, body);
    assert body == a + (gap + (b + trail));
    CollapseWordThen(a, gap + (b + trail));
    CollapseRun(gap, b + trail);
    CollapseWordThen(b, trail);
    if trail != [] {
      CollapseRun(trail, []);
      assert trail + [] == trail;
    } else {
      assert b + trail == b;
    }
  }
}
