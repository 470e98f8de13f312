/** The slug rule the four detail pages each spell out: lower-case, turn
    every run of characters outside `[a-z0-9]` into one hyphen
    (`replace(/[^a-z0-9]+/g, "-")`), then drop a hyphen at either end
    (`replace(/(^-|-$)/g, "")`). */
module Slug {
  import opened Text

  predicate IsSlugChar(c: char) {
    ('a' <= c <= 'z') || IsDigit(c)
  }

  /** The shape of every canonical slug: only `[a-z0-9-]`, no two hyphens in
      a row, and no hyphen at either end. */
  predicate IsSlugShaped(s: string) {
    && (forall i :: 0 <= i < |s| ==> IsSlugChar(s[i]) || s[i] == '-')
    && (forall i :: 0 <= i < |s| - 1 ==> !(s[i] == '-' && s[i + 1] == '-'))
    && (s != [] ==> s[0] != '-' && s[|s| - 1] != '-')
  }

  /** Drops the leading characters outside `[a-z0-9]`. */
  function SkipRun(s: string): (r: string)
    ensures |r| <= |s| && r == s[|s| - |r|..]
    ensures forall i :: 0 <= i < |s| - |r| ==> !IsSlugChar(s[i])
    ensures r == [] || IsSlugChar(r[0])
  {
    if s != [] && !IsSlugChar(s[0]) then
      var r := SkipRun(s[1..]);
      assert forall i :: 1 <= i < |s| - |r| ==> s[i] == s[1..][i - 1];
      r
    else s
  }

  /** `replace(/[^a-z0-9]+/g, "-")`. */
  function Collapse(s: string): string
    decreases |s|
  {
    if s == [] then []
    else if IsSlugChar(s[0]) then [s[0]] + Collapse(s[1..])
    else ['-'] + Collapse(SkipRun(s))
  }

  /** `Collapse` leaves only `[a-z0-9-]` with no two hyphens in a row, is
      empty only for the empty string, and starts with the first character
      when that one is kept. */
  lemma {:induction false} CollapseShape(s: string)
    ensures IsCollapsed(Collapse(s))
    ensures s == [] <==> Collapse(s) == []
    ensures s != [] && IsSlugChar(s[0]) ==> Collapse(s)[0] == s[0]
    ensures s != [] && !IsSlugChar(s[0]) ==> Collapse(s)[0] == '-'
    decreases |s|
  {
    if s != [] {
      var r := Collapse(s);
      if IsSlugChar(s[0]) {
        CollapseShape(s[1..]);
        assert r == [s[0]] + Collapse(s[1..]);
      } else {
        var z := SkipRun(s);
        CollapseShape(z);
        assert r == ['-'] + Collapse(z);
        assert z != [] ==> Collapse(z)[0] == z[0];
      }
    }
  }

  /** `replace(/(^-|-$)/g, "")`: the global replacement removes a leading
      hyphen and a trailing one (a lone `-` goes entirely). */
  function StripEdges(s: string): string {
    var t := if s != [] && s[0] == '-' then s[1..] else s;
    if t != [] && t[|t| - 1] == '-' then t[..|t| - 1] else t
  }

  /** What `Collapse` leaves: only `[a-z0-9-]` and no two hyphens in a row. */
  predicate IsCollapsed(c: string) {
    && (forall i :: 0 <= i < |c| ==> IsSlugChar(c[i]) || c[i] == '-')
    && (forall i :: 0 <= i < |c| - 1 ==> !(c[i] == '-' && c[i + 1] == '-'))
  }

  /** Stripping the edge hyphens of a collapsed string leaves a slug-shaped
      slice of it. */
  lemma StripEdgesShaped(c: string)
    requires IsCollapsed(c)
    ensures IsSlugShaped(StripEdges(c))
  {
    var a := if c != [] && c[0] == '-' then 1 else 0;
    var t := c[a..];
    var b := if t != [] && t[|t| - 1] == '-' then |c| - 1 else |c|;
    var u := c[a..b];
    assert StripEdges(c) == u;
    forall i | 0 <= i < |u|
      ensures IsSlugChar(u[i]) || u[i] == '-'
    {
      assert u[i] == c[a + i];
    }
    forall i | 0 <= i < |u| - 1
      ensures !(u[i] == '-' && u[i + 1] == '-')
    {
      assert u[i] == c[a + i] && u[i + 1] == c[a + i + 1];
    }
    if u != [] {
      assert u[0] == c[a] && u[|u| - 1] == c[b - 1];
      if a == 1 {
        assert c[1] != '-';
      }
      if b == |c| - 1 {
        assert c[|c| - 2] != '-';
      }
    }
  }

  /** The canonical form of a lower-cased name or slug. */
  function Canonical(s: string): (r: string)
    ensures IsSlugShaped(r)
  {
    CollapseShape(s);
    StripEdgesShaped(Collapse(s));
    StripEdges(Collapse(s))
  }

  /** The slug a page derives from a record's text: `Canonical` of its
      lower-cased form. */
  function SlugOf(s: string): (r: string)
    ensures IsSlugShaped(r)
  {
    Canonical(Lower(s))
  }

  // ---------------------------------------------------------------------
  // Idempotence

  /** `Collapse` leaves a collapsed string as it is. */
  lemma {:induction false} CollapseCollapsed(c: string)
    requires IsCollapsed(c)
    ensures Collapse(c) == c
    decreases |c|
  {
    if c != [] {
      CollapseCollapsed(c[1..]);
      if !IsSlugChar(c[0]) {
        assert c[1..] == [] || IsSlugChar(c[1]);
        assert SkipRun(c) == c[1..];
      }
      assert [c[0]] + c[1..] == c;
    }
  }

  /** A canonical slug is its own canonical form. */
  lemma CanonicalShaped(s: string)
    requires IsSlugShaped(s)
    ensures Canonical(s) == s
  {
    CollapseCollapsed(s);
  }

  /** Deriving a slug from a slug gives it back: the rule is idempotent. */
  lemma SlugOfIdempotent(s: string)
    ensures SlugOf(SlugOf(s)) == SlugOf(s)
  {
    var r := SlugOf(s);
    assert !HasUpper(r);
    LowerOfLower(r);
    CanonicalShaped(r);
  }

  /** A slug-shaped string is already lower case. */
  lemma ShapedIsLower(s: string)
    requires IsSlugShaped(s)
    ensures Lower(s) == s
  {
    assert !HasUpper(s);
    LowerOfLower(s);
  }

  /** No derived slug has a capital letter, so a page that compares the
      address's slug without lower-casing it never matches one that has. */
  lemma SlugOfNeverUpper(s: string, url: string)
    requires HasUpper(url)
    ensures SlugOf(s) != url
  {
  }

  // ---------------------------------------------------------------------
  // Surrounding white space does not change the slug

  lemma {:induction false} SkipRunDrop(x: string, k: nat)
    requires k <= |x|
    requires forall i :: 0 <= i < k ==> !IsSlugChar(x[i])
    ensures SkipRun(x) == SkipRun(x[k..])
    decreases k
  {
    if k > 0 {
      SkipRunDrop(x[1..], k - 1);
      assert x[1..][k - 1..] == x[k..];
    }
  }

  lemma {:induction false} SkipRunAppend(y: string, w: string)
    requires NoSlugChars(w)
    ensures SkipRun(y + w) == if SkipRun(y) == [] then [] else SkipRun(y) + w
    decreases |y|
  {
    if y == [] {
      SkipRunDrop(w, |w|);
      assert y + w == w;
    } else if !IsSlugChar(y[0]) {
      assert (y + w)[1..] == y[1..] + w;
      SkipRunAppend(y[1..], w);
    }
  }

  /** The last character of `Collapse(y)` is a hyphen exactly when `y` ends
      outside `[a-z0-9]`; otherwise it is `y`'s last character. */
  lemma {:induction false} CollapseLast(y: string)
    requires y != []
    ensures var c := Collapse(y);
            c != [] && if IsSlugChar(y[|y| - 1]) then c[|c| - 1] == y[|y| - 1] else c[|c| - 1] == '-'
    decreases |y|
  {
    if IsSlugChar(y[0]) {
      var r := y[1..];
      assert Collapse(y) == [y[0]] + Collapse(r);
      if r != [] {
        CollapseLast(r);
        assert r[|r| - 1] == y[|y| - 1];
      } else {
        assert Collapse(r) == [];
      }
    } else {
      var z := SkipRun(y);
      assert Collapse(y) == ['-'] + Collapse(z);
      if z != [] {
        CollapseLast(z);
        assert z[|z| - 1] == y[|y| - 1];
      } else {
        assert Collapse(z) == [];
        assert !IsSlugChar(y[|y| - 1]);
      }
    }
  }

  /** What appending a run outside `[a-z0-9]` adds to `Collapse(y)`: a
      hyphen, unless `y` already ends in such a run. */
  function HyphenAfter(y: string): string {
    if y != [] && !IsSlugChar(y[|y| - 1]) then [] else ['-']
  }

  predicate NoSlugChars(w: string) {
    forall i :: 0 <= i < |w| ==> !IsSlugChar(w[i])
  }

  lemma {:induction false} CollapseAppend(y: string, w: string)
    requires w != [] && NoSlugChars(w)
    ensures Collapse(y + w) == Collapse(y) + HyphenAfter(y)
    decreases |y|, 1
  {
    if y == [] {
      assert y + w == w;
      SkipRunDrop(w, |w|);
    } else if IsSlugChar(y[0]) {
      CollapseAppendSlugHead(y, w);
    } else {
      CollapseAppendSkipHead(y, w);
    }
  }

  lemma {:induction false} CollapseAppendSlugHead(y: string, w: string)
    requires w != [] && NoSlugChars(w) && y != [] && IsSlugChar(y[0])
    ensures Collapse(y + w) == Collapse(y) + HyphenAfter(y)
    decreases |y|, 0
  {
    assert (y + w)[1..] == y[1..] + w;
    CollapseAppend(y[1..], w);
    if y[1..] != [] {
      assert HyphenAfter(y[1..]) == HyphenAfter(y);
    }
  }

  lemma {:induction false} CollapseAppendSkipHead(y: string, w: string)
    requires w != [] && NoSlugChars(w) && y != [] && !IsSlugChar(y[0])
    ensures Collapse(y + w) == Collapse(y) + HyphenAfter(y)
    decreases |y|, 0
  {
    SkipRunAppend(y, w);
    var z := SkipRun(y);
    if z == [] {
      CollapseAppendAllSkipped(y, w);
    } else {
      CollapseAppend(z, w);
      assert z[|z| - 1] == y[|y| - 1];
      CollapseAppendRest(y, w, z);
    }
  }

  /** `y` lies wholly outside `[a-z0-9]`: both sides are one hyphen. */
  lemma CollapseAppendAllSkipped(y: string, w: string)
    requires w != [] && NoSlugChars(w) && y != [] && !IsSlugChar(y[0])
    requires SkipRun(y) == [] && SkipRun(y + w) == []
    ensures Collapse(y + w) == Collapse(y) + HyphenAfter(y)
  {
    assert (y + w)[0] == y[0];
    assert !IsSlugChar(y[|y| - 1]);
  }

  lemma CollapseAppendRest(y: string, w: string, z: string)
    requires w != [] && y != [] && !IsSlugChar(y[0])
    requires z == SkipRun(y) && z != [] && SkipRun(y + w) == z + w
    requires Collapse(z + w) == Collapse(z) + HyphenAfter(z)
    requires z[|z| - 1] == y[|y| - 1]
    ensures Collapse(y + w) == Collapse(y) + HyphenAfter(y)
  {
    var yw := y + w;
    assert yw[0] == y[0];
    assert HyphenAfter(z) == HyphenAfter(y);
    var cz := Collapse(z);
    assert Collapse(yw) == ['-'] + Collapse(z + w);
    assert Collapse(y) == ['-'] + cz;
    ConcatAssoc(['-'], cz, HyphenAfter(y));
  }

  lemma ConcatAssoc(a: string, b: string, c: string)
    ensures a + (b + c) == (a + b) + c
  {
  }

  lemma StripEdgesHyphen(c: string)
    requires c != [] && c[|c| - 1] != '-'
    ensures StripEdges(c + ['-']) == StripEdges(c)
  {
    var d := c + ['-'];
    if c[0] == '-' {
      assert d[1..] == c[1..] + ['-'];
      assert (c[1..] + ['-'])[..|c[1..]|] == c[1..];
    } else {
      assert d[..|c|] == c;
    }
  }

  lemma CanonicalAppendSpaces(y: string, w: string)
    requires w != [] && NoSlugChars(w)
    ensures Canonical(y + w) == Canonical(y)
  {
    CollapseAppend(y, w);
    var c := Collapse(y);
    assert Canonical(y + w) == StripEdges(Collapse(y + w));
    assert Canonical(y) == StripEdges(c);
    if y == [] {
      assert c == [];
      assert Collapse(y + w) == ['-'];
    } else if IsSlugChar(y[|y| - 1]) {
      CollapseLast(y);
      assert Collapse(y + w) == c + ['-'];
      StripEdgesHyphen(c);
    } else {
      assert HyphenAfter(y) == [];
      assert Collapse(y + w) == c + [];
      assert c + [] == c;
    }
  }

  lemma CanonicalTrimEnd(x: string)
    ensures Canonical(TrimEnd(x)) == Canonical(x)
  {
    var y := TrimEnd(x);
    if |y| < |x| {
      var w := x[|y|..];
      assert x == y + w;
      CanonicalAppendSpaces(y, w);
    }
  }

  lemma CanonicalTrimStart(x: string)
    ensures Canonical(TrimStart(x)) == Canonical(x)
  {
    var y := TrimStart(x);
    var k := |x| - |y|;
    if k > 0 {
      SkipRunDrop(x, k);
      assert x[k..] == y;
      assert Collapse(x) == ['-'] + Collapse(SkipRun(y));
      if y == [] || IsSlugChar(y[0]) {
        StripEdgesLead(Collapse(y));
      }
    }
  }

  lemma StripEdgesLead(c: string)
    requires c == [] || c[0] != '-'
    ensures StripEdges(['-'] + c) == StripEdges(c)
  {
    assert (['-'] + c)[1..] == c;
  }

  /** The parish page trims before deriving its slug and the other pages do
      not; trimming never changes the derived slug, so all four pages agree. */
  lemma SlugOfTrim(s: string)
    ensures SlugOf(Trim(s)) == SlugOf(s)
  {
    var l := Lower(s);
    assert Lower(TrimEnd(s)) == TrimEnd(l) by {
      LowerTrimEnd(s);
    }
    LowerTrimStart(TrimEnd(s));
    CanonicalTrimEnd(l);
    CanonicalTrimStart(TrimEnd(l));
  }

  lemma {:induction false} LowerTrimEnd(s: string)
    ensures Lower(TrimEnd(s)) == TrimEnd(Lower(s))
    decreases |s|
  {
    if s != [] && IsSpace(s[|s| - 1]) {
      LowerTrimEnd(s[..|s| - 1]);
      assert Lower(s)[..|s| - 1] == Lower(s[..|s| - 1]);
    }
  }

  lemma {:induction false} LowerTrimStart(s: string)
    ensures Lower(TrimStart(s)) == TrimStart(Lower(s))
    decreases |s|
  {
    var l := Lower(s);
    if s != [] && IsSpace(s[0]) {
      LowerTrimStart(s[1..]);
      assert l[1..] == Lower(s[1..]);
      assert IsSpace(l[0]);
      assert TrimStart(l) == TrimStart(l[1..]);
    } else if s != [] {
      assert !IsSpace(l[0]);
      assert TrimStart(l) == l;
    }
  }
}
