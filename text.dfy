/** Character classes, trimming, ASCII lower-casing, substring search and
    delimiter splitting, as the pages' JavaScript uses them
    (`String.prototype.trim`, `toLowerCase`, `includes`, `replace` and
    `split` with a regular expression of single-character alternatives). */
module Text {

  /** JavaScript's WhiteSpace and LineTerminator code points: what `trim()`
      removes and what `\s` matches in a regular expression. */
  predicate IsSpace(c: char) {
    || c == ' ' || c == '\t' || c == '\n' || c == '\U{B}' || c == '\U{C}' || c == '\r'
    || c == '\U{A0}' || c == '\U{1680}' || ('\U{2000}' <= c <= '\U{200A}')
    || c == '\U{2028}' || c == '\U{2029}' || c == '\U{202F}' || c == '\U{205F}'
    || c == '\U{3000}' || c == '\U{FEFF}'
  }

  /** The code points that `.` in a regular expression does not match. */
  predicate IsLineTerminator(c: char) {
    c == '\n' || c == '\r' || c == '\U{2028}' || c == '\U{2029}'
  }

  predicate IsDigit(c: char) { '0' <= c <= '9' }

  predicate IsUpper(c: char) { 'A' <= c <= 'Z' }

  /** `\w` in a regular expression without the `u` flag. */
  predicate IsWordChar(c: char) {
    ('a' <= c <= 'z') || IsUpper(c) || IsDigit(c) || c == '_'
  }

  predicate AllSpace(s: string) {
    forall i :: 0 <= i < |s| ==> IsSpace(s[i])
  }

  predicate Free(s: string, delims: set<char>) {
    forall i :: 0 <= i < |s| ==> s[i] !in delims
  }

  // ---------------------------------------------------------------------
  // Lower-casing

  function LowerChar(c: char): (r: char)
    ensures !IsUpper(r)
    ensures !IsUpper(c) ==> r == c
    ensures IsUpper(c) ==> r as int == c as int + 32
  {
    if IsUpper(c) then (c as int + 32) as char else c
  }

  /** `toLowerCase()`, restricted to the ASCII letters. */
  function Lower(s: string): (r: string)
    ensures |r| == |s|
    ensures forall i :: 0 <= i < |s| ==> r[i] == LowerChar(s[i])
  {
    seq(|s|, i requires 0 <= i < |s| => LowerChar(s[i]))
  }

  predicate HasUpper(s: string) {
    exists i :: 0 <= i < |s| && IsUpper(s[i])
  }

  /** A lower-cased string has no capital letter, and lower-casing it again
      changes nothing. */
  lemma LowerIsLower(s: string)
    ensures !HasUpper(Lower(s))
    ensures Lower(Lower(s)) == Lower(s)
  {
  }

  /** Lower-casing leaves a string without capitals as it is. */
  lemma LowerOfLower(s: string)
    requires !HasUpper(s)
    ensures Lower(s) == s
  {
  }

  // ---------------------------------------------------------------------
  // Trimming

  /** Drops the leading white space. */
  function TrimStart(s: string): (r: string)
    ensures |r| <= |s| && r == s[|s| - |r|..]
    ensures forall i :: 0 <= i < |s| - |r| ==> IsSpace(s[i])
    ensures r == [] || !IsSpace(r[0])
  {
    if s != [] && IsSpace(s[0]) then TrimStart(s[1..]) else s
  }

  /** Drops the trailing white space. */
  function TrimEnd(s: string): (r: string)
    ensures |r| <= |s| && r == s[..|r|]
    ensures forall i :: |r| <= i < |s| ==> IsSpace(s[i])
    ensures r == [] || !IsSpace(r[|r| - 1])
  {
    if s != [] && IsSpace(s[|s| - 1]) then TrimEnd(s[..|s| - 1]) else s
  }

  /** `trim()`. */
  function Trim(s: string): string {
    TrimStart(TrimEnd(s))
  }

  predicate IsTrimmed(s: string) {
    s == [] || (!IsSpace(s[0]) && !IsSpace(s[|s| - 1]))
  }

  /** `trim()` yields a slice of its input that only white space surrounds,
      and whose own ends are not white space. */
  lemma TrimSlice(s: string)
    ensures exists i, j :: 0 <= i <= j <= |s| && Trim(s) == s[i..j]
                        && AllSpace(s[..i]) && AllSpace(s[j..])
    ensures IsTrimmed(Trim(s))
  {
    var e := TrimEnd(s);
    var r := TrimStart(e);
    var i, j := |e| - |r|, |e|;
    assert r == s[i..j];
    assert AllSpace(s[..i]);
    assert AllSpace(s[j..]);
  }

  /** A string that does not start or end with white space is its own trim. */
  lemma TrimTrimmed(s: string)
    requires IsTrimmed(s)
    ensures Trim(s) == s
  {
  }

  lemma TrimIdempotent(s: string)
    ensures Trim(Trim(s)) == Trim(s)
  {
    TrimSlice(s);
    TrimTrimmed(Trim(s));
  }

  /** Trailing white space added to a string does not survive `TrimEnd`. */
  lemma {:induction false} TrimEndSpaces(s: string, w: string)
    requires AllSpace(w)
    ensures TrimEnd(s + w) == TrimEnd(s)
    decreases |w|
  {
    if w != [] {
      var w' := w[..|w| - 1];
      assert (s + w)[..|s + w| - 1] == s + w';
      TrimEndSpaces(s, w');
    } else {
      assert s + w == s;
    }
  }

  lemma TrimSpaces(s: string, w: string)
    requires AllSpace(w)
    ensures Trim(s + w) == Trim(s)
  {
    TrimEndSpaces(s, w);
  }

  /** The end of the run of white space that starts at `j`. */
  function SkipSpaces(s: string, j: nat): (r: nat)
    requires j <= |s|
    ensures j <= r <= |s|
    ensures forall i :: j <= i < r ==> IsSpace(s[i])
    ensures r < |s| ==> !IsSpace(s[r])
    decreases |s| - j
  {
    if j < |s| && IsSpace(s[j]) then SkipSpaces(s, j + 1) else j
  }

  // ---------------------------------------------------------------------
  // Removing characters and searching

  /** `SkipSpaces` is the end of the run of white space that starts at `j`. */
  lemma {:induction false} SkipSpacesAt(s: string, j: nat, m: nat)
    requires j <= m <= |s|
    requires forall i :: j <= i < m ==> IsSpace(s[i])
    requires m < |s| ==> !IsSpace(s[m])
    ensures SkipSpaces(s, j) == m
    decreases m - j
  {
    if j < m {
      SkipSpacesAt(s, j + 1, m);
    }
  }

  /** Trimming keeps a string free of whatever characters it was free of. */
  lemma TrimFree(s: string, banned: set<char>)
    requires Free(s, banned)
    ensures Free(Trim(s), banned)
  {
    var e := TrimEnd(s);
    assert forall k :: 0 <= k < |e| ==> e[k] == s[k];
    var t := TrimStart(e);
    assert forall k :: 0 <= k < |t| ==> t[k] == e[|e| - |t| + k];
  }

  /** `replace(/c/g, "")`. */
  function Without(s: string, c: char): (r: string)
    ensures Free(r, {c})
    ensures Free(s, {c}) ==> r == s
  {
    if s == [] then []
    else if s[0] == c then Without(s[1..], c)
    else [s[0]] + Without(s[1..], c)
  }

  /** `s.includes(t)`: some suffix of `s` starts with `t`. */
  function Contains(s: string, t: string): bool
    decreases |s|
  {
    t <= s || (s != [] && Contains(s[1..], t))
  }

  /** `Contains` holds exactly when `t` occurs in `s` at some position. */
  lemma {:induction false} ContainsAt(s: string, t: string)
    ensures Contains(s, t) <==> exists i :: 0 <= i <= |s| && t <= s[i..]
    decreases |s|
  {
    assert s[0..] == s;
    if s != [] {
      ContainsAt(s[1..], t);
      if Contains(s, t) && !(t <= s) {
        var i :| 0 <= i <= |s[1..]| && t <= s[1..][i..];
        assert s[1..][i..] == s[i + 1..];
      }
      if exists i :: 0 <= i <= |s| && t <= s[i..] {
        var i :| 0 <= i <= |s| && t <= s[i..];
        if i > 0 {
          assert s[1..][i - 1..] == s[i..];
        }
      }
    }
  }

  // ---------------------------------------------------------------------
  // Splitting

  /** `split(re)` where `re` matches any one character of `delims`: the
      pieces between the delimiters, with an empty piece wherever two
      delimiters meet or one stands at an end. */
  function SplitOn(s: string, delims: set<char>): (r: seq<string>)
    ensures |r| >= 1
    ensures forall k :: 0 <= k < |r| ==> Free(r[k], delims)
  {
    if s == [] then [[]]
    else
      var rest := SplitOn(s[1..], delims);
      if s[0] in delims then [[]] + rest
      else [[s[0]] + rest[0]] + rest[1..]
  }

  /** `split(re)` where `re` is `c1|c2|...|\r?\n`: like `SplitOn`, except that a
      carriage return directly before a line feed belongs to the separator. */
  function SplitOnCrLf(s: string, delims: set<char>): (r: seq<string>)
    requires '\n' in delims
    ensures |r| >= 1
    ensures forall k :: 0 <= k < |r| ==> Free(r[k], delims)
  {
    if s == [] then [[]]
    else if |s| >= 2 && s[0] == '\r' && s[1] == '\n' then [[]] + SplitOnCrLf(s[2..], delims)
    else
      var rest := SplitOnCrLf(s[1..], delims);
      if s[0] in delims then [[]] + rest
      else [[s[0]] + rest[0]] + rest[1..]
  }

  /** `parts.join(d)`. */
  function Join(parts: seq<string>, d: char): (r: string)
    requires |parts| >= 1
  {
    if |parts| == 1 then parts[0] else parts[0] + [d] + Join(parts[1..], d)
  }

  /** Splitting on a single delimiter and joining the pieces with it gives
      the string back. */
  lemma {:induction false} JoinSplit(s: string, d: char)
    ensures Join(SplitOn(s, {d}), d) == s
    decreases |s|
  {
    if s != [] {
      var rest := SplitOn(s[1..], {d});
      JoinSplit(s[1..], d);
      if s[0] != d {
        if |rest| == 1 {
        } else {
          assert Join(rest, d) == rest[0] + [d] + Join(rest[1..], d);
          assert [s[0]] + rest[0] + [d] + Join(rest[1..], d) == [s[0]] + Join(rest, d);
        }
      }
    }
  }

  lemma {:induction false} SplitPiece(p: string, d: char, rest: string, delims: set<char>)
    requires d in delims && Free(p, delims)
    ensures SplitOn(p + [d] + rest, delims) == [p] + SplitOn(rest, delims)
    decreases |p|
  {
    if p == [] {
      assert p + [d] + rest == [d] + rest;
    } else {
      assert (p + [d] + rest)[1..] == p[1..] + [d] + rest;
      SplitPiece(p[1..], d, rest, delims);
      assert [p[0]] + p[1..] == p;
    }
  }

  lemma {:induction false} SplitLastPiece(p: string, delims: set<char>)
    requires Free(p, delims)
    ensures SplitOn(p, delims) == [p]
    decreases |p|
  {
    if p != [] {
      SplitLastPiece(p[1..], delims);
      assert [p[0]] + p[1..] == p;
    }
  }

  /** Joining pieces that hold no delimiter, and splitting the result again,
      gives the same pieces in the same order. */
  lemma {:induction false} SplitJoin(parts: seq<string>, d: char, delims: set<char>)
    requires |parts| >= 1 && d in delims
    requires forall k :: 0 <= k < |parts| ==> Free(parts[k], delims)
    ensures SplitOn(Join(parts, d), delims) == parts
    decreases |parts|
  {
    if |parts| == 1 {
      SplitLastPiece(parts[0], delims);
    } else {
      SplitPiece(parts[0], d, Join(parts[1..], d), delims);
      SplitJoin(parts[1..], d, delims);
    }
  }

  lemma {:induction false} SplitCrLfPiece(p: string, d: char, rest: string, delims: set<char>)
    requires '\n' in delims && d in delims && d != '\n' && d != '\r' && Free(p, delims)
    ensures SplitOnCrLf(p + [d] + rest, delims) == [p] + SplitOnCrLf(rest, delims)
    decreases |p|
  {
    if p == [] {
      assert p + [d] + rest == [d] + rest;
    } else {
      assert (p + [d] + rest)[1..] == p[1..] + [d] + rest;
      SplitCrLfPiece(p[1..], d, rest, delims);
      assert [p[0]] + p[1..] == p;
    }
  }

  lemma {:induction false} SplitCrLfLastPiece(p: string, delims: set<char>)
    requires '\n' in delims && Free(p, delims)
    ensures SplitOnCrLf(p, delims) == [p]
    decreases |p|
  {
    if p != [] {
      SplitCrLfLastPiece(p[1..], delims);
      assert [p[0]] + p[1..] == p;
    }
  }

  /** The round trip of `SplitJoin` for the `\r?\n` splitter, joining with a
      delimiter other than the line feed. */
  lemma {:induction false} SplitCrLfJoin(parts: seq<string>, d: char, delims: set<char>)
    requires |parts| >= 1 && '\n' in delims && d in delims && d != '\n' && d != '\r'
    requires forall k :: 0 <= k < |parts| ==> Free(parts[k], delims)
    ensures SplitOnCrLf(Join(parts, d), delims) == parts
    decreases |parts|
  {
    if |parts| == 1 {
      SplitCrLfLastPiece(parts[0], delims);
    } else {
      SplitCrLfPiece(parts[0], d, Join(parts[1..], d), delims);
      SplitCrLfJoin(parts[1..], d, delims);
    }
  }

  /** `b` is `a`, or `a` with the carriage return that `\r?\n` would have
      swallowed. */
  predicate CrVariant(a: string, b: string) {
    b == a || b == a + ['\r']
  }

  lemma {:induction false} SplitCrLfVariant(s: string, delims: set<char>)
    requires '\n' in delims && '\r' !in delims
    ensures |SplitOnCrLf(s, delims)| == |SplitOn(s, delims)|
    ensures forall k :: 0 <= k < |SplitOn(s, delims)| ==>
              CrVariant(SplitOnCrLf(s, delims)[k], SplitOn(s, delims)[k])
    decreases |s|
  {
    if s == [] {
    } else if |s| >= 2 && s[0] == '\r' && s[1] == '\n' {
      SplitCrLfVariant(s[2..], delims);
      SplitCrStep(s, delims);
    } else {
      SplitCrLfVariant(s[1..], delims);
      SplitPlainStep(s, delims);
    }
  }

  /** One character that does not start `\r\n` extends the correspondence
      from the rest of the string to the whole. */
  lemma SplitPlainStep(s: string, delims: set<char>)
    requires '\n' in delims && '\r' !in delims
    requires s != [] && !(|s| >= 2 && s[0] == '\r' && s[1] == '\n')
    requires |SplitOnCrLf(s[1..], delims)| == |SplitOn(s[1..], delims)|
    requires forall k :: 0 <= k < |SplitOn(s[1..], delims)| ==>
               CrVariant(SplitOnCrLf(s[1..], delims)[k], SplitOn(s[1..], delims)[k])
    ensures |SplitOnCrLf(s, delims)| == |SplitOn(s, delims)|
    ensures forall k :: 0 <= k < |SplitOn(s, delims)| ==>
              CrVariant(SplitOnCrLf(s, delims)[k], SplitOn(s, delims)[k])
  {
    var a, b := SplitOnCrLf(s[1..], delims), SplitOn(s[1..], delims);
    if s[0] in delims {
      assert SplitOnCrLf(s, delims) == [[]] + a && SplitOn(s, delims) == [[]] + b;
      PrependVariant([], a, b);
    } else {
      assert SplitOnCrLf(s, delims) == [[s[0]] + a[0]] + a[1..];
      assert SplitOn(s, delims) == [[s[0]] + b[0]] + b[1..];
      ExtendHeadVariant(a, b, s[0]);
    }
  }

  lemma PrependVariant(x: string, a: seq<string>, b: seq<string>)
    requires |a| == |b|
    requires forall k :: 0 <= k < |b| ==> CrVariant(a[k], b[k])
    ensures forall k :: 0 <= k < |[x] + b| ==> CrVariant(([x] + a)[k], ([x] + b)[k])
  {
    forall k | 0 <= k < |[x] + b|
      ensures CrVariant(([x] + a)[k], ([x] + b)[k])
    {
      if k > 0 {
        assert ([x] + a)[k] == a[k - 1] && ([x] + b)[k] == b[k - 1];
      }
    }
  }

  lemma ExtendHeadVariant(a: seq<string>, b: seq<string>, c: char)
    requires |a| == |b| >= 1
    requires forall k :: 0 <= k < |b| ==> CrVariant(a[k], b[k])
    ensures forall k :: 0 <= k < |b| ==>
              CrVariant(([[c] + a[0]] + a[1..])[k], ([[c] + b[0]] + b[1..])[k])
  {
    assert CrVariant(a[0], b[0]);
    if b[0] != a[0] {
      assert [c] + (a[0] + ['\r']) == ([c] + a[0]) + ['\r'];
    }
    forall k | 0 <= k < |b|
      ensures CrVariant(([[c] + a[0]] + a[1..])[k], ([[c] + b[0]] + b[1..])[k])
    {
      if k > 0 {
        assert ([[c] + a[0]] + a[1..])[k] == a[k] && ([[c] + b[0]] + b[1..])[k] == b[k];
      }
    }
  }

  /** Without `\r?`, a carriage return before a line feed ends a piece. */
  lemma SplitCrStep(s: string, delims: set<char>)
    requires |s| >= 2 && s[0] == '\r' && s[1] == '\n' && '\n' in delims && '\r' !in delims
    ensures SplitOn(s, delims) == [['\r']] + SplitOn(s[2..], delims)
  {
    assert s[1..][1..] == s[2..];
    var b1 := SplitOn(s[1..], delims);
    assert b1 == [[]] + SplitOn(s[2..], delims);
    assert SplitOn(s, delims) == [[s[0]] + b1[0]] + b1[1..];
    assert b1[0] == [] && b1[1..] == SplitOn(s[2..], delims);
    assert [s[0]] + b1[0] == ['\r'];
  }

  /** `split(/;|\r?\n/)` and `split(/;|\n/)` (and the like) differ only by a
      carriage return at the end of some pieces, which trimming removes: the
      trimmed pieces are the same. */
  lemma SplitCrLfTrimmed(s: string, delims: set<char>)
    requires '\n' in delims && '\r' !in delims
    ensures TrimEach(SplitOnCrLf(s, delims)) == TrimEach(SplitOn(s, delims))
  {
    SplitCrLfVariant(s, delims);
    var a, b := SplitOnCrLf(s, delims), SplitOn(s, delims);
    forall k | 0 <= k < |a|
      ensures Trim(a[k]) == Trim(b[k])
    {
      if b[k] != a[k] {
        TrimSpaces(a[k], ['\r']);
      }
    }
  }

  // ---------------------------------------------------------------------
  // The `.map(s => s.trim()).filter(Boolean)` pipeline

  /** `parts.map(s => s.trim())`. */
  function TrimEach(parts: seq<string>): (r: seq<string>)
    ensures |r| == |parts|
    ensures forall k :: 0 <= k < |r| ==> r[k] == Trim(parts[k])
  {
    seq(|parts|, k requires 0 <= k < |parts| => Trim(parts[k]))
  }

  /** `parts.filter(Boolean)`: drops the empty strings, keeping the order. */
  function NonEmptyOnly(parts: seq<string>): (r: seq<string>)
    ensures |r| <= |parts|
    ensures forall k :: 0 <= k < |r| ==> r[k] != []
    ensures forall x :: x in r <==> x in parts && x != []
  {
    if parts == [] then []
    else if parts[0] == [] then NonEmptyOnly(parts[1..])
    else [parts[0]] + NonEmptyOnly(parts[1..])
  }

  /** Filtering a list that has no empty string returns it unchanged. */
  lemma {:induction false} NonEmptyOnlyKeeps(parts: seq<string>)
    requires forall k :: 0 <= k < |parts| ==> parts[k] != []
    ensures NonEmptyOnly(parts) == parts
  {
    if parts != [] {
      NonEmptyOnlyKeeps(parts[1..]);
    }
  }

  /** Trimming every piece of a list of trimmed strings changes nothing. */
  lemma TrimEachTrimmed(parts: seq<string>)
    requires forall k :: 0 <= k < |parts| ==> IsTrimmed(parts[k])
    ensures TrimEach(parts) == parts
  {
    forall k | 0 <= k < |parts| ensures Trim(parts[k]) == parts[k] {
      TrimTrimmed(parts[k]);
    }
  }

  /** Every element is non-empty, trimmed and free of `banned`. */
  predicate Clean(parts: seq<string>, banned: set<char>) {
    forall k :: 0 <= k < |parts| ==> parts[k] != [] && IsTrimmed(parts[k]) && Free(parts[k], banned)
  }

  lemma CleanSubset(parts: seq<string>, a: set<char>, b: set<char>)
    requires Clean(parts, a) && b <= a
    ensures Clean(parts, b)
  {
  }

  /** `items.map(s => s.trim()).filter(Boolean)`. */
  function CleanList(items: seq<string>): (r: seq<string>)
    ensures Clean(r, {})
    ensures forall x :: x in r <==> x != [] && x in TrimEach(items)
  {
    var t := TrimEach(items);
    forall k | 0 <= k < |t| ensures IsTrimmed(t[k]) { TrimSlice(items[k]); }
    var r := NonEmptyOnly(t);
    forall k | 0 <= k < |r| ensures IsTrimmed(r[k]) {
      assert r[k] in t;
    }
    r
  }

  /** A list that is already clean comes back unchanged. */
  lemma CleanListKeeps(items: seq<string>)
    requires Clean(items, {})
    ensures CleanList(items) == items
  {
    TrimEachTrimmed(items);
    NonEmptyOnlyKeeps(items);
  }

  /** `s.split(re).map(s => s.trim()).filter(Boolean)`, where `re` matches any
      one character of `delims`. */
  function SplitClean(s: string, delims: set<char>): (r: seq<string>)
    ensures Clean(r, delims)
    ensures s == [] ==> r == []
  {
    var parts := SplitOn(s, delims);
    CleanListFree(parts, delims);
    assert s == [] ==> parts == [[]];
    CleanList(parts)
  }

  /** Clean entries joined with one of the delimiters split back into the
      same entries, in the same order. */
  lemma SplitCleanJoin(parts: seq<string>, d: char, delims: set<char>)
    requires |parts| >= 1 && d in delims && Clean(parts, delims)
    ensures SplitClean(Join(parts, d), delims) == parts
  {
    SplitJoin(parts, d, delims);
    CleanListKeeps(parts);
  }

  /** `s.replace(/\\/g, "").split(re).map(s => s.trim()).filter(Boolean)`,
      where `re` is `c1|c2|...|\r?\n`. */
  function CleanSplit(s: string, delims: set<char>): (r: seq<string>)
    requires '\n' in delims
    ensures Clean(r, delims + {'\\'})
  {
    var parts := SplitOnCrLf(Without(s, '\\'), delims);
    SplitCrLfFree(Without(s, '\\'), delims, '\\');
    forall k | 0 <= k < |parts| ensures Free(parts[k], delims + {'\\'}) {
      FreeUnion(parts[k], delims, {'\\'});
    }
    CleanListFree(parts, delims + {'\\'});
    CleanList(parts)
  }

  lemma FreeUnion(x: string, a: set<char>, b: set<char>)
    requires Free(x, a) && Free(x, b)
    ensures Free(x, a + b)
  {
  }

  /** Cleaning keeps the elements free of whatever the input was free of. */
  lemma CleanListFree(items: seq<string>, banned: set<char>)
    requires forall k :: 0 <= k < |items| ==> Free(items[k], banned)
    ensures Clean(CleanList(items), banned)
  {
    var r := CleanList(items);
    forall k | 0 <= k < |r| ensures Free(r[k], banned) {
      var t := TrimEach(items);
      assert r[k] in r && r[k] in t;
      var j :| 0 <= j < |t| && t[j] == r[k];
      TrimFree(items[j], banned);
    }
  }

  /** A character that the string does not hold is in none of its pieces. */
  lemma {:induction false} SplitCrLfFree(s: string, delims: set<char>, c: char)
    requires '\n' in delims && Free(s, {c})
    ensures forall k :: 0 <= k < |SplitOnCrLf(s, delims)| ==> Free(SplitOnCrLf(s, delims)[k], {c})
    decreases |s|
  {
    if s == [] {
    } else if |s| >= 2 && s[0] == '\r' && s[1] == '\n' {
      SplitCrLfFree(s[2..], delims, c);
    } else {
      SplitCrLfFree(s[1..], delims, c);
    }
  }

  /** Entries joined with one of the delimiters come back from `CleanSplit`
      as they were, in the same order: the string form loses and reorders
      nothing. */
  lemma CleanSplitJoin(parts: seq<string>, d: char, delims: set<char>)
    requires |parts| >= 1 && '\n' in delims && d in delims && d != '\n' && d != '\r' && d != '\\'
    requires Clean(parts, delims + {'\\'})
    ensures CleanSplit(Join(parts, d), delims) == parts
  {
    var s := Join(parts, d);
    forall k | 0 <= k < |parts| ensures Free(parts[k], delims) && Free(parts[k], {'\\'}) {
    }
    JoinFree(parts, d, '\\');
    assert Without(s, '\\') == s;
    SplitCrLfJoin(parts, d, delims);
    CleanListKeeps(parts);
  }

  lemma {:induction false} JoinFree(parts: seq<string>, d: char, c: char)
    requires |parts| >= 1 && d != c
    requires forall k :: 0 <= k < |parts| ==> Free(parts[k], {c})
    ensures Free(Join(parts, d), {c})
    decreases |parts|
  {
    if |parts| > 1 {
      JoinFree(parts[1..], d, c);
    }
  }
}
