/** The parish page: finding the record for the address's slug, the
    normalisers that turn its photo, schedule and list fields into arrays,
    the schedule parser that splits off a trailing "(language)", and the
    "Shares Building with" list. */
module ParishDetail {
  import opened Text
  import opened Values
  import opened Slug

  /** One schedule line: its text and, when it ended in "(...)", the
      language named there. */
  datatype TimeEntry = TimeEntry(text: string, language: Option<string>)

  /** An element of an array field: a string, or an entry object that the
      data already holds in parsed form. */
  datatype Item = IStr(s: string) | IEntry(entry: TimeEntry)

  /** A parish record as loaded from the JSON list. */
  type Record = map<string, Raw<Item>>

  function Field(rec: Record, key: string): Raw<Item> {
    if key in rec then rec[key] else Missing
  }

  /** `String(item)`: an object prints as "[object Object]". */
  function ItemString(i: Item): string {
    match i
    case IStr(s) => s
    case IEntry(_) => "[object Object]"
  }

  /** `items.map(String)`. */
  function ItemStrings(items: seq<Item>): (r: seq<string>)
    ensures |r| == |items| && forall i :: 0 <= i < |items| ==> r[i] == ItemString(items[i])
  {
    seq(|items|, i requires 0 <= i < |items| => ItemString(items[i]))
  }

  /** `String(v || "")`: an array prints its elements joined with commas. */
  function RawString(v: Raw<Item>): string {
    match v
    case Missing => ""
    case Str(s) => s
    case Arr(items) => if items == [] then "" else Join(ItemStrings(items), ',')
  }

  // ---------------------------------------------------------------------
  // Looking the parish up

  /** The slug the page derives from a record: `parishSlug`, trimmed,
      lower-cased and made canonical. */
  function RecordSlug(rec: Record): (r: string)
    ensures IsSlugShaped(r)
  {
    SlugOf(Trim(RawString(Field(rec, "parishSlug"))))
  }

  function RecordSlugs(list: seq<Record>): (r: seq<string>)
    ensures |r| == |list| && forall i :: 0 <= i < |list| ==> r[i] == RecordSlug(list[i])
  {
    seq(|list|, i requires 0 <= i < |list| => RecordSlug(list[i]))
  }

  /** The position of the first record whose derived slug equals `target`. */
  function SlugIndex(list: seq<Record>, target: string): (r: Option<nat>)
    ensures r.Some? ==> r.value < |list| && RecordSlug(list[r.value]) == target
                        && forall j :: 0 <= j < r.value ==> RecordSlug(list[j]) != target
    ensures r.None? ==> forall j :: 0 <= j < |list| ==> RecordSlug(list[j]) != target
  {
    IndexOf(RecordSlugs(list), target)
  }

  /** `list.find(...)`: the first record whose derived slug equals the
      address's slug, lower-cased. */
  function FindParish(list: seq<Record>, slug: string): Option<Record> {
    match SlugIndex(list, Lower(slug))
    case Some(i) => Some(list[i])
    case None => None
  }

  /** Every record is found at its own derived slug unless an earlier record
      derives the same one. */
  lemma FindParishAtOwnSlug(list: seq<Record>, i: nat)
    requires i < |list|
    requires forall j :: 0 <= j < i ==> RecordSlug(list[j]) != RecordSlug(list[i])
    ensures FindParish(list, RecordSlug(list[i])) == Some(list[i])
  {
    var s := RecordSlug(list[i]);
    ShapedIsLower(s);
    var xs := RecordSlugs(list);
    IndexOfFirst(xs, i);
    assert SlugIndex(list, s) == Some(i);
  }

  /** The address's slug is compared after lower-casing, so its case does
      not matter. */
  lemma FindParishIgnoresCase(list: seq<Record>, slug: string)
    ensures FindParish(list, slug) == FindParish(list, Lower(slug))
  {
    LowerIsLower(slug);
  }

  // ---------------------------------------------------------------------
  // The "(language)" suffix of a schedule line: /^(.*)\s*\(([^)]+)\)\s*$/

  /** The end of the first line: `.` stops at a line terminator. */
  function LineEnd(t: string, i: nat): (r: nat)
    requires i <= |t|
    ensures i <= r <= |t|
    ensures forall j :: i <= j < r ==> !IsLineTerminator(t[j])
    ensures r < |t| ==> IsLineTerminator(t[r])
    decreases |t| - i
  {
    if i < |t| && !IsLineTerminator(t[i]) then LineEnd(t, i + 1) else i
  }

  /** `\(([^)]+)\)\s*$` matches at `p`: an opening parenthesis, at least one
      character other than `)`, and a closing parenthesis with only white
      space after it. */
  predicate GroupAt(t: string, p: nat) {
    var e := |TrimEnd(t)|;
    && p + 2 < e && t[p] == '(' && t[e - 1] == ')'
    && forall i :: p < i < e - 1 ==> t[i] != ')'
  }

  /** The greedy `(.*)\s*`: the longest first group, at most `k` long, after
      which (and after the white space that follows) the rest matches. */
  function GroupEnd(t: string, k: nat): (r: Option<nat>)
    requires k <= |t|
    ensures r.Some? ==> r.value <= k && GroupAt(t, SkipSpaces(t, r.value))
                        && forall j :: r.value < j <= k ==> !GroupAt(t, SkipSpaces(t, j))
    ensures r.None? ==> forall j :: 0 <= j <= k ==> !GroupAt(t, SkipSpaces(t, j))
    decreases k
  {
    if GroupAt(t, SkipSpaces(t, k)) then Some(k)
    else if k == 0 then None
    else GroupEnd(t, k - 1)
  }

  /** `t.match(re)`, then `{text: m[1].trim(), language: m[2].trim()}`, or
      `{text: t}` when there is no match. */
  function ParseEntry(t: string): TimeEntry {
    match GroupEnd(t, LineEnd(t, 0))
    case Some(k) =>
      var p := SkipSpaces(t, k);
      var e := |TrimEnd(t)|;
      TimeEntry(Trim(t[..k]), Some(Trim(t[p + 1..e - 1])))
    case None => TimeEntry(t, None)
  }

  /** Any way of reading `t` as the pattern — a first group `t[..k]` on one
      line, white space up to `p`, `(`, a group without `)`, `)` and white
      space to the end — is one the parser considers, so a language is
      found. */
  lemma ParseComplete(t: string, k: nat, p: nat, q: nat)
    requires k <= p < q && q + 1 < |t|
    requires forall i :: 0 <= i < k ==> !IsLineTerminator(t[i])
    requires forall i :: k <= i < p ==> IsSpace(t[i])
    requires t[p] == '(' && t[q] == ')' && p + 1 < q
    requires forall i :: p < i < q ==> t[i] != ')'
    requires forall i :: q < i < |t| ==> IsSpace(t[i])
    ensures ParseEntry(t).language.Some?
  {
    SkipSpacesAt(t, k, p);
    TrimEndAt(t, q + 1);
    assert GroupAt(t, SkipSpaces(t, k));
    var le := LineEnd(t, 0);
    assert k <= le;
  }

  /** `TrimEnd` stops at the last character that is not white space. */
  lemma TrimEndAt(t: string, e: nat)
    requires 0 < e <= |t| && !IsSpace(t[e - 1])
    requires forall i :: e <= i < |t| ==> IsSpace(t[i])
    ensures |TrimEnd(t)| == e
  {
    var r := TrimEnd(t);
    assert |r| >= e by {
      assert !IsSpace(t[e - 1]);
    }
    assert |r| <= e by {
      assert r == [] || !IsSpace(t[|r| - 1]);
    }
  }

  /** How a parsed entry is shown: its text, then " (language)" when the
      language is not empty. */
  function Display(e: TimeEntry): string {
    match e.language
    case Some(l) => if l != [] then e.text + " (" + l + ")" else e.text
    case None => e.text
  }

  /** The entries that the string form can carry: text on one line without
      separators or backslashes, and a language without parentheses. */
  predicate Displayable(e: TimeEntry) {
    && e.text != [] && IsTrimmed(e.text)
    && Free(e.text, {';', '\n', '\\', '\r', '\U{2028}', '\U{2029}'})
    && match e.language
       case None => e.text[|e.text| - 1] != ')'
       case Some(l) => l != [] && IsTrimmed(l) && Free(l, {';', '\n', '\\', '(', ')'})
  }

  /** Parsing what the page shows gives the entry back. */
  lemma ParseDisplay(e: TimeEntry)
    requires Displayable(e)
    ensures ParseEntry(Display(e)) == e
  {
    match e.language
    case None => ParsePlain(e.text);
    case Some(x) => ParseSuffixed(e.text, x);
  }

  /** A line that does not end in `)` has no language. */
  lemma ParsePlain(u: string)
    requires u != [] && u[|u| - 1] != ')' && !IsSpace(u[|u| - 1])
    ensures ParseEntry(u) == TimeEntry(u, None)
  {
    TrimEndAt(u, |u|);
  }

  /** `u (x)` reads as text `u` and language `x`. */
  lemma ParseSuffixed(u: string, x: string)
    requires u != [] && IsTrimmed(u) && Free(u, {'\r', '\n', '\U{2028}', '\U{2029}'})
    requires x != [] && IsTrimmed(x) && Free(x, {'(', ')'})
    ensures ParseEntry(u + " (" + x + ")") == TimeEntry(u, Some(x))
  {
    var t := u + " (" + x + ")";
    var K := |u| + 1;
    SuffixGroupEnd(u, x);
    assert t[..K] == u + [' '];
    TrimSpaces(u, [' ']);
    TrimTrimmed(u);
    assert t[K + 1..|t| - 1] == x;
    TrimTrimmed(x);
  }

  /** In `u (x)` the greedy first group is `u` and the space after it. */
  lemma SuffixGroupEnd(u: string, x: string)
    requires Free(u, {'\r', '\n', '\U{2028}', '\U{2029}'})
    requires x != [] && Free(x, {'(', ')'})
    ensures var t := u + " (" + x + ")";
            |TrimEnd(t)| == |t| && SkipSpaces(t, |u| + 1) == |u| + 1
            && GroupEnd(t, LineEnd(t, 0)) == Some(|u| + 1)
  {
    var t := u + " (" + x + ")";
    var K := |u| + 1;
    TrimEndAt(t, |t|);
    SkipSpacesAt(t, K, K);
    var le := LineEnd(t, 0);
    assert K <= le by {
      assert forall i :: 0 <= i < |u| ==> t[i] == u[i];
      assert forall i :: 0 <= i <= K ==> !IsLineTerminator(t[i]);
    }
    assert forall i :: K < i < |t| - 1 ==> t[i] == x[i - K - 1];
    assert GroupAt(t, K);
    forall j | K < j <= le
      ensures !GroupAt(t, SkipSpaces(t, j))
    {
      SuffixNoLaterGroup(u, x, j);
    }
  }

  /** In `u (x)` no group opens after the `(` that follows `u`. */
  lemma SuffixNoLaterGroup(u: string, x: string, j: nat)
    requires x != [] && Free(x, {'(', ')'})
    requires |u| + 1 < j <= |u + " (" + x + ")"|
    ensures !GroupAt(u + " (" + x + ")", SkipSpaces(u + " (" + x + ")", j))
  {
    var t := u + " (" + x + ")";
    var K := |u| + 1;
    TrimEndAt(t, |t|);
    var p := SkipSpaces(t, j);
    if p + 2 < |t| {
      assert t[p] == x[p - K - 1];
    }
  }

  // ---------------------------------------------------------------------
  // The normalisers

  /** The schedule lines of an array: strings trimmed, empty ones dropped and
      the rest parsed; entry objects kept as they are. */
  function TimesFromItems(items: seq<Item>): (r: seq<TimeEntry>)
    ensures |r| <= |items|
  {
    if items == [] then []
    else
      var rest := TimesFromItems(items[1..]);
      match items[0]
      case IStr(s) => if Trim(s) == [] then rest else [ParseEntry(Trim(s))] + rest
      case IEntry(e) => [e] + rest
  }

  function ParseAll(pieces: seq<string>): (r: seq<TimeEntry>)
    ensures |r| == |pieces| && forall i :: 0 <= i < |pieces| ==> r[i] == ParseEntry(pieces[i])
  {
    seq(|pieces|, i requires 0 <= i < |pieces| => ParseEntry(pieces[i]))
  }

  /** `normalizeTimes`. */
  function NormalizeTimes(raw: Raw<Item>): seq<TimeEntry> {
    if !Truthy(raw) then []
    else
      match raw
      case Missing => []
      case Arr(items) => TimesFromItems(items)
      case Str(s) => ParseAll(CleanSplit(Trim(Without(s, '\\')), {';', '\n'}))
  }

  function Entries(es: seq<TimeEntry>): (r: seq<Item>)
    ensures |r| == |es| && forall i :: 0 <= i < |es| ==> r[i] == IEntry(es[i])
  {
    seq(|es|, i requires 0 <= i < |es| => IEntry(es[i]))
  }

  /** Entry objects pass through the array path untouched. */
  lemma {:induction false} TimesFromEntries(es: seq<TimeEntry>)
    ensures TimesFromItems(Entries(es)) == es
  {
    if es != [] {
      TimesFromEntries(es[1..]);
      assert Entries(es)[1..] == Entries(es[1..]);
    }
  }

  /** Normalising the normalised entries again changes nothing. */
  lemma NormalizeTimesIdempotent(raw: Raw<Item>)
    ensures NormalizeTimes(Arr(Entries(NormalizeTimes(raw)))) == NormalizeTimes(raw)
  {
    TimesFromEntries(NormalizeTimes(raw));
  }

  function Displays(es: seq<TimeEntry>): (r: seq<string>)
    ensures |r| == |es| && forall i :: 0 <= i < |es| ==> r[i] == Display(es[i])
  {
    seq(|es|, i requires 0 <= i < |es| => Display(es[i]))
  }

  /** A schedule written out the way the page shows it, entries separated by
      `;`, parses back to the same entries in the same order. */
  lemma NormalizeTimesDisplayed(es: seq<TimeEntry>)
    requires |es| >= 1 && forall i :: 0 <= i < |es| ==> Displayable(es[i])
    ensures NormalizeTimes(Str(Join(Displays(es), ';'))) == es
  {
    var ds := Displays(es);
    var s := Join(ds, ';');
    DisplaysSplit(es);
    assert s != [];
    assert NormalizeTimes(Str(s)) == ParseAll(CleanSplit(Trim(Without(s, '\\')), {';', '\n'}));
    ParseDisplays(es);
  }

  /** The shown entries, joined with `;`, split back into themselves. */
  lemma DisplaysSplit(es: seq<TimeEntry>)
    requires |es| >= 1 && forall i :: 0 <= i < |es| ==> Displayable(es[i])
    ensures var s := Join(Displays(es), ';');
            s != [] && CleanSplit(Trim(Without(s, '\\')), {';', '\n'}) == Displays(es)
  {
    var ds := Displays(es);
    forall i | 0 <= i < |ds|
      ensures ds[i] != [] && IsTrimmed(ds[i]) && Free(ds[i], {';', '\n', '\\'})
    {
      DisplayClean(es[i]);
    }
    assert Clean(ds, {';', '\n'} + {'\\'});
    var s := Join(ds, ';');
    JoinTrimmed(ds, ';');
    CleanSplitJoin(ds, ';', {';', '\n'});
    assert Without(s, '\\') == s by {
      assert Free(s, {'\\'}) by { JoinFree(ds, ';', '\\'); }
    }
    TrimTrimmed(s);
  }

  lemma ParseDisplays(es: seq<TimeEntry>)
    requires forall i :: 0 <= i < |es| ==> Displayable(es[i])
    ensures ParseAll(Displays(es)) == es
  {
    forall i | 0 <= i < |es| ensures ParseEntry(Displays(es)[i]) == es[i] {
      ParseDisplay(es[i]);
    }
  }

  /** What the page shows of a displayable entry is one clean piece. */
  lemma DisplayClean(e: TimeEntry)
    requires Displayable(e)
    ensures Display(e) != [] && IsTrimmed(Display(e)) && Free(Display(e), {';', '\n', '\\'})
  {
    match e.language
    case None =>
    case Some(x) =>
      var d := Display(e);
      assert d == e.text + " (" + x + ")";
      assert forall i :: 0 <= i < |e.text| ==> d[i] == e.text[i];
      assert forall i :: |e.text| + 2 <= i < |d| - 1 ==> d[i] == x[i - |e.text| - 2];
  }

  /** Joining non-empty trimmed pieces with a non-space gives a trimmed
      string. */
  lemma {:induction false} JoinTrimmed(parts: seq<string>, d: char)
    requires |parts| >= 1 && !IsSpace(d)
    requires forall k :: 0 <= k < |parts| ==> parts[k] != [] && IsTrimmed(parts[k])
    ensures IsTrimmed(Join(parts, d))
    ensures Join(parts, d) != [] && Join(parts, d)[0] == parts[0][0]
    decreases |parts|
  {
    if |parts| > 1 {
      JoinTrimmed(parts[1..], d);
      var rest := Join(parts[1..], d);
      assert Join(parts, d) == parts[0] + [d] + rest;
    }
  }

  /** `normalizePhotos`: strings split on `;`, `,`, `|` and line breaks. */
  function NormalizePhotos(raw: Raw<Item>): (r: seq<string>)
    ensures Clean(r, {})
    ensures raw.Str? ==> Clean(r, {';', ',', '|', '\n', '\\'})
  {
    if !Truthy(raw) then []
    else
      match raw
      case Missing => []
      case Arr(items) => CleanList(ItemStrings(items))
      case Str(s) => CleanSplit(s, {';', ',', '|', '\n'})
  }

  /** `normalizeList`: strings split on `;`, `|` and line breaks. */
  function NormalizeList(raw: Raw<Item>): (r: seq<string>)
    ensures Clean(r, {})
    ensures raw.Str? ==> Clean(r, {';', '|', '\n', '\\'})
  {
    if !Truthy(raw) then []
    else
      match raw
      case Missing => []
      case Arr(items) => CleanList(ItemStrings(items))
      case Str(s) => CleanSplit(s, {';', '|', '\n'})
  }

  function Strings(xs: seq<string>): (r: seq<Item>)
    ensures |r| == |xs| && forall i :: 0 <= i < |xs| ==> r[i] == IStr(xs[i])
  {
    seq(|xs|, i requires 0 <= i < |xs| => IStr(xs[i]))
  }

  /** Photo addresses joined with any of the separators come back as they
      were. */
  lemma NormalizePhotosJoined(urls: seq<string>, d: char)
    requires |urls| >= 1 && (d == ';' || d == ',' || d == '|')
    requires Clean(urls, {';', ',', '|', '\n', '\\'})
    ensures NormalizePhotos(Str(Join(urls, d))) == urls
  {
    var delims := {';', ',', '|', '\n'};
    CleanSubset(urls, {';', ',', '|', '\n', '\\'}, delims + {'\\'});
    var s := Join(urls, d);
    JoinTrimmed(urls, d);
    assert NormalizePhotos(Str(s)) == CleanSplit(s, delims);
    CleanSplitJoin(urls, d, delims);
  }

  /** The same for devotions and notes, separated by `;` or `|`. */
  lemma NormalizeListJoined(xs: seq<string>, d: char)
    requires |xs| >= 1 && (d == ';' || d == '|')
    requires Clean(xs, {';', '|', '\n', '\\'})
    ensures NormalizeList(Str(Join(xs, d))) == xs
  {
    var delims := {';', '|', '\n'};
    CleanSubset(xs, {';', '|', '\n', '\\'}, delims + {'\\'});
    var s := Join(xs, d);
    JoinTrimmed(xs, d);
    assert NormalizeList(Str(s)) == CleanSplit(s, delims);
    CleanSplitJoin(xs, d, delims);
  }

  /** An array of clean strings passes through both list normalisers
      unchanged, so normalising twice is normalising once. */
  lemma NormalizeArrayKeeps(xs: seq<string>)
    requires Clean(xs, {})
    ensures NormalizePhotos(Arr(Strings(xs))) == xs
    ensures NormalizeList(Arr(Strings(xs))) == xs
  {
    assert ItemStrings(Strings(xs)) == xs;
    CleanListKeeps(xs);
  }

  /** Commas separate photo addresses but not devotions. */
  lemma CommaSeparatesPhotos()
    ensures NormalizePhotos(Str("a,b")) == ["a", "b"]
  {
    var xs := ["a", "b"];
    assert Join(xs, ',') == "a,b";
    assert Clean(xs, {';', ',', '|', '\n', '\\'});
    NormalizePhotosJoined(xs, ',');
  }

  lemma CommaKeptInLists()
    ensures NormalizeList(Str("a,b")) == ["a,b"]
  {
    var xs := ["a,b"];
    assert Join(xs, ';') == "a,b";
    assert Clean(xs, {';', '|', '\n', '\\'});
    NormalizeListJoined(xs, ';');
  }

  // ---------------------------------------------------------------------
  // The normalised parish

  datatype Parish = Parish(
    fields: Record,
    photos: seq<string>,
    sunday: seq<TimeEntry>,
    daily: seq<TimeEntry>,
    confession: seq<TimeEntry>,
    adoration: seq<TimeEntry>,
    benediction: seq<TimeEntry>,
    devotions: seq<string>,
    notesList: seq<string>,
    notes: Raw<Item>)

  /** `rec[keys[0]] || rec[keys[1]] || ... || ""`: the first of the
      alternative names whose field is truthy decides, and with none of them
      truthy the list is read from `""`. */
  function Pick(rec: Record, keys: seq<string>): (r: Raw<Item>)
    ensures forall k :: 0 <= k < |keys| && Truthy(Field(rec, keys[k]))
                        && (forall j :: 0 <= j < k ==> !Truthy(Field(rec, keys[j]))) ==>
                          r == Field(rec, keys[k])
    ensures (forall k :: 0 <= k < |keys| ==> !Truthy(Field(rec, keys[k]))) ==> r == Str("")
  {
    var vs := seq(|keys|, i requires 0 <= i < |keys| => Field(rec, keys[i]));
    assert forall k :: 0 <= k < |keys| && Truthy(Field(rec, keys[k]))
                       && (forall j :: 0 <= j < k ==> !Truthy(Field(rec, keys[j]))) ==>
                         FirstTruthy(vs) == Field(rec, keys[k]) by {
      forall k | 0 <= k < |keys| && Truthy(Field(rec, keys[k]))
                 && (forall j :: 0 <= j < k ==> !Truthy(Field(rec, keys[j])))
        ensures FirstTruthy(vs) == Field(rec, keys[k])
      {
        FirstTruthyAt(vs, k);
      }
    }
    FirstTruthy(vs)
  }

  // The alternative names of each normalised field, in the order tried.
  const PhotoKeys: seq<string> := ["parishPhotos", "parishPhoto", "parish_photos_url"]
  const SundayKeys: seq<string> := ["sundayMassTimes", "sunday_mass_times", "massTimes", "mass_times"]
  const DailyKeys: seq<string> := ["dailyMassTimes", "daily_mass_times", "weekday_mass_times"]
  const ConfessionKeys: seq<string> := ["confessionTimes", "confession_times"]
  const AdorationKeys: seq<string> := ["adorationTimes", "adoration_times"]
  const BenedictionKeys: seq<string> := ["benedictionTimes", "benediction_times"]
  const DevotionKeys: seq<string> := ["devotions", "devotion"]
  const NotesKeys: seq<string> := ["parishesNotes", "parishNotes"]

  /** The record with its normalised fields: each taken from the first
      truthy one of its alternative names. */
  function Normalized(rec: Record): (p: Parish)
    ensures p.fields == rec
    ensures p.photos == NormalizePhotos(Pick(rec, PhotoKeys))
    ensures p.sunday == NormalizeTimes(Pick(rec, SundayKeys))
    ensures p.daily == NormalizeTimes(Pick(rec, DailyKeys))
    ensures p.confession == NormalizeTimes(Pick(rec, ConfessionKeys))
    ensures p.adoration == NormalizeTimes(Pick(rec, AdorationKeys))
    ensures p.benediction == NormalizeTimes(Pick(rec, BenedictionKeys))
    ensures p.devotions == NormalizeList(Pick(rec, DevotionKeys))
    ensures p.notes == Pick(rec, NotesKeys) && p.notesList == NormalizeList(p.notes)
    ensures Clean(p.photos, {}) && Clean(p.devotions, {}) && Clean(p.notesList, {})
    ensures !Truthy(p.notes) ==> p.notesList == []
  {
    var notes := Pick(rec, NotesKeys);
    Parish(
      rec,
      NormalizePhotos(Pick(rec, PhotoKeys)),
      NormalizeTimes(Pick(rec, SundayKeys)),
      NormalizeTimes(Pick(rec, DailyKeys)),
      NormalizeTimes(Pick(rec, ConfessionKeys)),
      NormalizeTimes(Pick(rec, AdorationKeys)),
      NormalizeTimes(Pick(rec, BenedictionKeys)),
      NormalizeList(Pick(rec, DevotionKeys)),
      NormalizeList(notes),
      notes)
  }

  /** The Sunday schedule falls back to `massTimes` only when both Sunday
      field names are absent or empty. */
  lemma SundayFallback(rec: Record)
    requires !Truthy(Field(rec, "sundayMassTimes")) && !Truthy(Field(rec, "sunday_mass_times"))
    requires Truthy(Field(rec, "massTimes"))
    ensures Normalized(rec).sunday == NormalizeTimes(Field(rec, "massTimes"))
  {
    var keys := SundayKeys;
    assert keys[0] == "sundayMassTimes" && keys[1] == "sunday_mass_times" && keys[2] == "massTimes";
    assert forall j :: 0 <= j < 2 ==> !Truthy(Field(rec, keys[j]));
  }

  /** The banner: the first photo of the normalised parish, when there is
      one. */
  function Banner(rec: Record): (r: Option<string>)
    ensures r.Some? <==> Normalized(rec).photos != []
    ensures r.Some? ==> r.value == Normalized(rec).photos[0] && r.value != [] && IsTrimmed(r.value)
  {
    var photos := Normalized(rec).photos;
    if |photos| > 0 then Some(photos[0]) else None
  }

  // ---------------------------------------------------------------------
  // Shares Building with

  /** A name in the list, linked to `/parish/<slug>` when it has a slug. */
  datatype SharedLink = SharedLink(name: string, slug: Option<string>)

  /** The section: not shown, shown with its names, or the page failing
      because a field it splits is not a string. */
  datatype SharedSection = Hidden | Failed | Shown(links: seq<SharedLink>)

  /** Pairs the i-th name with the i-th slug, when that slug exists and is
      not empty. */
  function Pair(names: seq<string>, slugs: seq<string>): (r: seq<SharedLink>)
    ensures |r| == |names|
    ensures forall i :: 0 <= i < |r| ==> r[i].name == names[i]
    ensures forall i :: 0 <= i < |r| ==> (r[i].slug.Some? <==> i < |slugs| && slugs[i] != [])
    ensures forall i :: 0 <= i < |r| && r[i].slug.Some? ==> r[i].slug.value == slugs[i]
  {
    seq(|names|, i requires 0 <= i < |names| =>
      SharedLink(names[i], if i < |slugs| && slugs[i] != [] then Some(slugs[i]) else None))
  }

  /** The section as written: both fields are split with `split`, so a
      missing slug field (or any non-string) makes the page fail. */
  function SharedAsWritten(name: Raw<Item>, slug: Raw<Item>): SharedSection {
    if !Truthy(name) then Hidden
    else if !name.Str? || !slug.Str? then Failed
    else Shown(Pair(TrimEach(SplitOn(name.s, {';'})), TrimEach(SplitOn(slug.s, {';'}))))
  }

  /** The section as intended: a missing slug field reads as no slugs, as
      the other detail pages read theirs (`String(x || "")`). */
  function SharedBuilding(name: Raw<Item>, slug: Raw<Item>): (r: SharedSection)
    ensures r.Hidden? <==> !Truthy(name)
    ensures !r.Failed?
  {
    if !Truthy(name) then Hidden
    else Shown(Pair(TrimEach(SplitOn(RawString(name), {';'})), TrimEach(SplitOn(RawString(slug), {';'}))))
  }

  /** Where the source works, the corrected section is the same; where it
      fails, every name is still listed, unlinked. */
  lemma SharedBuildingAgrees(name: Raw<Item>, slug: Raw<Item>)
    ensures name.Str? && slug.Str? ==> SharedBuilding(name, slug) == SharedAsWritten(name, slug)
    ensures SharedAsWritten(name, slug).Failed? ==> SharedBuilding(name, slug).Shown?
  {
  }

  /** A single name with no slug field, which breaks the page as written,
      is shown unlinked. */
  lemma SharedBuildingNoSlug(name: string)
    requires name != [] && IsTrimmed(name) && Free(name, {';'})
    ensures SharedAsWritten(Str(name), Missing) == Failed
    ensures SharedBuilding(Str(name), Missing) == Shown([SharedLink(name, None)])
  {
    SplitSingle(name);
    SplitSingle("");
    var links := Pair([name], [[]]);
    assert SharedBuilding(Str(name), Missing) == Shown(links);
    assert |links| == 1 && links[0] == SharedLink(name, None);
  }

  /** A trimmed string without `;` is one name. */
  lemma SplitSingle(name: string)
    requires IsTrimmed(name) && Free(name, {';'})
    ensures TrimEach(SplitOn(name, {';'})) == [name]
  {
    SplitLastPiece(name, {';'});
    TrimTrimmed(name);
  }

  /** Names and slugs written as parallel `;` lists pair up position by
      position: each name links to its own slug. */
  lemma SharedBuildingPairs(names: seq<string>, slugs: seq<string>)
    requires |names| >= 1 && |slugs| == |names|
    requires forall i :: 0 <= i < |names| ==> IsTrimmed(names[i]) && Free(names[i], {';'}) && names[i] != []
    requires forall i :: 0 <= i < |slugs| ==> IsTrimmed(slugs[i]) && Free(slugs[i], {';'}) && slugs[i] != []
    ensures SharedBuilding(Str(Join(names, ';')), Str(Join(slugs, ';')))
            == Shown(seq(|names|, i requires 0 <= i < |names| => SharedLink(names[i], Some(slugs[i]))))
  {
    var n, sl := Join(names, ';'), Join(slugs, ';');
    JoinTrimmed(names, ';');
    SplitJoin(names, ';', {';'});
    SplitJoin(slugs, ';', {';'});
    TrimEachTrimmed(names);
    TrimEachTrimmed(slugs);
    assert SharedBuilding(Str(n), Str(sl)) == Shown(Pair(names, slugs));
    PairAllLinked(names, slugs);
  }

  /** With a non-empty slug at every position, every name is linked to its
      own slug. */
  lemma PairAllLinked(names: seq<string>, slugs: seq<string>)
    requires |slugs| == |names|
    requires forall i :: 0 <= i < |slugs| ==> slugs[i] != []
    ensures Pair(names, slugs) == seq(|names|, i requires 0 <= i < |names| => SharedLink(names[i], Some(slugs[i])))
  {
  }
}
