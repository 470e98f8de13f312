/** The map page: the normaliser applied to every parish once the list is
    loaded, the schedule matcher with its overnight rule, the filter that
    decides which parishes get a marker, and the popup text colour. */
module MapPage {
  import opened Text
  import opened Values

  /** The week as the matcher lists it, Monday first. */
  const Days: seq<string> :=
    ["monday", "tuesday", "wednesday", "thursday", "friday", "saturday", "sunday"]

  // ---------------------------------------------------------------------
  // normalize

  /** `normalize`: an absent or empty field gives no entries; an array is
      trimmed and its empty elements dropped; a string loses its
      backslashes and is split on `;` and line breaks, each piece trimmed
      and the empty ones dropped. */
  function Normalize(raw: Raw<string>): (r: seq<string>)
    ensures Clean(r, {})
    ensures raw.Str? ==> Clean(r, {';', '\n', '\\'})
  {
    if !Truthy(raw) then []
    else
      match raw
      case Missing => []
      case Arr(items) => CleanList(items)
      case Str(s) => CleanSplit(s, {';', '\n'})
  }

  /** Entries joined with `;` come back from `Normalize` as they were, in the
      same order. */
  lemma NormalizeJoined(parts: seq<string>)
    requires |parts| >= 1 && Clean(parts, {';', '\n', '\\'})
    ensures Normalize(Str(Join(parts, ';'))) == parts
  {
    CleanSplitJoin(parts, ';', {';', '\n'});
  }

  /** An array is never split again: trimmed, non-empty elements pass
      through `Normalize` unchanged even when they hold `;`. In particular
      normalising the output of `Normalize` changes nothing. */
  lemma NormalizeArrayKeeps(items: seq<string>)
    requires Clean(items, {})
    ensures Normalize(Arr(items)) == items
  {
    CleanListKeeps(items);
  }

  lemma NormalizeIdempotent(raw: Raw<string>)
    ensures Normalize(Arr(Normalize(raw))) == Normalize(raw)
  {
    NormalizeArrayKeeps(Normalize(raw));
  }

  // ---------------------------------------------------------------------
  // The start-day pattern /(\w+)\s+\d{1,2}:\d{2}/

  /** The end of the run of word characters that starts at `q`. */
  function WordEnd(s: string, q: nat): (r: nat)
    requires q <= |s|
    ensures q <= r <= |s|
    ensures forall i :: q <= i < r ==> IsWordChar(s[i])
    ensures r < |s| ==> !IsWordChar(s[r])
    decreases |s| - q
  {
    if q < |s| && IsWordChar(s[q]) then WordEnd(s, q + 1) else q
  }

  /** `\d{1,2}:\d{2}` matches at `d`. */
  predicate ClockAt(s: string, d: nat) {
    || (d + 3 < |s| && IsDigit(s[d]) && s[d + 1] == ':' && IsDigit(s[d + 2]) && IsDigit(s[d + 3]))
    || (d + 4 < |s| && IsDigit(s[d]) && IsDigit(s[d + 1]) && s[d + 2] == ':'
        && IsDigit(s[d + 3]) && IsDigit(s[d + 4]))
  }

  /** The whole pattern matches at `q`. `\w+` is greedy and `\s` never
      matches a word character, so the word runs to the end of its run and
      the spaces to the end of theirs (see `PatternChoices`). */
  predicate MatchesAt(s: string, q: nat) {
    && q < |s| && IsWordChar(s[q])
    && var e := WordEnd(s, q);
       e < |s| && IsSpace(s[e]) && ClockAt(s, SkipSpaces(s, e))
  }

  /** `WordEnd` is the end of the run of word characters that starts at `q`. */
  lemma {:induction false} WordEndAt(s: string, q: nat, e: nat)
    requires q <= e <= |s|
    requires forall i :: q <= i < e ==> IsWordChar(s[i])
    requires e < |s| ==> !IsWordChar(s[e])
    ensures WordEnd(s, q) == e
    decreases e - q
  {
    if q < e {
      WordEndAt(s, q + 1, e);
    }
  }

  /** Any way of matching the pattern at `q` — a word `s[q..e]`, spaces
      `s[e..m]`, a clock at `m` — captures the whole word: the backtracking
      choices collapse to the ones `MatchesAt` makes. */
  lemma PatternChoices(s: string, q: nat, e: nat, m: nat)
    requires q < e < m <= |s|
    requires forall i :: q <= i < e ==> IsWordChar(s[i])
    requires forall i :: e <= i < m ==> IsSpace(s[i])
    requires ClockAt(s, m)
    ensures e == WordEnd(s, q) && m == SkipSpaces(s, e)
    ensures MatchesAt(s, q)
  {
    assert IsSpace(s[e]);
    WordEndAt(s, q, e);
    assert IsDigit(s[m]);
    SkipSpacesAt(s, e, m);
  }

  /** The leftmost position at or after `q` where the pattern matches. */
  function MatchFrom(s: string, q: nat): (r: Option<nat>)
    requires q <= |s|
    ensures r.Some? ==> q <= r.value < |s| && MatchesAt(s, r.value)
                        && forall j :: q <= j < r.value ==> !MatchesAt(s, j)
    ensures r.None? ==> forall j :: q <= j < |s| ==> !MatchesAt(s, j)
    decreases |s| - q
  {
    if q == |s| then None
    else if MatchesAt(s, q) then Some(q)
    else MatchFrom(s, q + 1)
  }

  /** `/(\w+)\s+\d{1,2}:\d{2}/.exec(s)?.[1]`: the word before the leftmost
      time of day. */
  function StartWord(s: string): Option<string> {
    match MatchFrom(s, 0)
    case Some(q) => Some(s[q..WordEnd(s, q)])
    case None => None
  }

  /** The captured word is a whole word: it does not start in the middle of
      a run of word characters. */
  lemma StartWordIsWholeWord(s: string)
    requires MatchFrom(s, 0).Some?
    ensures var q := MatchFrom(s, 0).value; q == 0 || !IsWordChar(s[q - 1])
  {
    var q := MatchFrom(s, 0).value;
    if q > 0 {
      WordEndBack(s, q);
    }
  }

  /** A word character just before `q` belongs to the same run, so the
      pattern would match one place earlier. */
  lemma WordEndBack(s: string, q: nat)
    requires 0 < q < |s|
    ensures IsWordChar(s[q - 1]) && MatchesAt(s, q) ==> MatchesAt(s, q - 1)
  {
    if IsWordChar(s[q - 1]) {
      assert WordEnd(s, q - 1) == WordEnd(s, q);
    }
  }

  // ---------------------------------------------------------------------
  // matchesDay

  /** `daysOfWeek.indexOf(w)`: the weekday's position, or -1. */
  function DayIndex(w: string): (r: int)
    ensures -1 <= r < 7
    ensures r >= 0 ==> Days[r] == w
    ensures r == -1 <==> w !in Days
  {
    if w == "monday" then 0 else if w == "tuesday" then 1 else if w == "wednesday" then 2
    else if w == "thursday" then 3 else if w == "friday" then 4 else if w == "saturday" then 5
    else if w == "sunday" then 6 else -1
  }

  /** One entry, for an already lower-cased day: it names the day, or it is
      an overnight entry whose start day is the day before. */
  predicate EntryMatches(t: string, day: string) {
    var lower := Lower(t);
    || Contains(lower, day)
    || (&& Contains(lower, "overnight")
        && match StartWord(lower)
           case None => false
           case Some(w) => Days[(DayIndex(w) + 1) % 7] == day)
  }

  /** `matchesDay(times, day)`. */
  predicate MatchesDay(times: seq<string>, day: string) {
    |times| > 0 && exists i :: 0 <= i < |times| && EntryMatches(times[i], Lower(day))
  }

  /** An absent or empty list matches no day, and an entry that names the
      day, in any case, makes the list match it. */
  lemma MatchesDayBasics(times: seq<string>, day: string, i: nat)
    ensures !MatchesDay([], day)
    ensures i < |times| && Contains(Lower(times[i]), Lower(day)) ==> MatchesDay(times, day)
  {
  }

  /** Without overnight entries, a list matches a day exactly when one of
      its entries, lower-cased, contains the lower-cased day. */
  lemma MatchesDayPlain(times: seq<string>, day: string)
    requires forall i :: 0 <= i < |times| ==> !Contains(Lower(times[i]), "overnight")
    ensures MatchesDay(times, day) <==>
              exists i :: 0 <= i < |times| && Contains(Lower(times[i]), Lower(day))
  {
  }

  /** The overnight rule: an overnight entry whose start word is `w` matches
      the day after `w` in `Days`, and a start word that is no weekday counts
      as the day before Monday. */
  lemma OvernightRule(t: string, w: string, j: nat, day: string)
    requires Contains(Lower(t), "overnight") && StartWord(Lower(t)) == Some(w)
    requires j == (DayIndex(w) + 1) % 7 && day == Days[j]
    ensures MatchesDay([t], day)
  {
    DayIsLower(j);
    assert EntryMatches(t, day);
    assert [t][0] == t;
  }

  /** An overnight entry that starts on weekday `Days[i]` also matches the
      next weekday, Sunday wrapping round to Monday. */
  lemma OvernightNextDay(t: string, i: nat)
    requires i < 7
    requires Contains(Lower(t), "overnight") && StartWord(Lower(t)) == Some(Days[i])
    ensures MatchesDay([t], Days[(i + 1) % 7])
  {
    DayIndexOfDay(i);
    OvernightRule(t, Days[i], (i + 1) % 7, Days[(i + 1) % 7]);
  }

  /** `indexOf` finds each weekday at its own position. */
  lemma DayIndexOfDay(i: nat)
    requires i < 7
    ensures DayIndex(Days[i]) == i
  {
    if i == 0 {
    } else if i == 1 {
      assert Days[1][0] != 'm';
    } else if i == 2 {
      assert Days[2][0] == 'w';
    } else if i == 3 {
      assert Days[3][1] == 'h';
    } else if i == 4 {
      assert Days[4][0] == 'f';
    } else if i == 5 {
      assert Days[5][1] == 'a';
    } else {
      assert Days[6][1] == 'u' && Days[6][0] == 's';
    }
  }

  /** The names in `Days` are already lower-case. */
  lemma DayIsLower(j: nat)
    requires j < 7
    ensures Lower(Days[j]) == Days[j]
  {
    var d := Days[j];
    assert forall i :: 0 <= i < |d| ==> 'a' <= d[i] <= 'z';
    LowerOfLower(d);
  }

  /** An overnight entry whose leftmost time follows a word that is not a
      weekday gets index -1, and so matches Monday. */
  lemma OvernightNonWeekdayIsMonday(t: string, w: string)
    requires Contains(Lower(t), "overnight") && StartWord(Lower(t)) == Some(w) && w !in Days
    ensures MatchesDay([t], Days[0])
  {
    OvernightRule(t, w, 0, Days[0]);
  }

  /** `matchesDay(["Friday 9:00pm - 9:00am (Overnight)"], "saturday")`: the
      entry never says Saturday, yet matches it through the overnight rule. */
  lemma FridayOvernightMatchesSaturday()
    ensures MatchesDay(["Friday 9:00pm - 9:00am (Overnight)"], "saturday")
  {
    var t := "Friday 9:00pm - 9:00am (Overnight)";
    var lower := "friday 9:00pm - 9:00am (overnight)";
    LowerExample(t, lower);
    FridayExample(lower);
    FridayOvernightStep(t);
  }

  lemma FridayExample(lower: string)
    requires lower == "friday 9:00pm - 9:00am (overnight)"
    ensures StartWord(lower) == Some("friday") && Contains(lower, "overnight")
  {
    FridayStart(lower);
    assert "overnight" <= lower[24..];
    ContainsAt(lower, "overnight");
  }

  lemma FridayStart(lower: string)
    requires lower == "friday 9:00pm - 9:00am (overnight)"
    ensures StartWord(lower) == Some("friday")
  {
    FridayMatch(lower);
    assert MatchFrom(lower, 0) == Some(0);
    assert lower[0..6] == "friday";
  }

  lemma FridayMatch(lower: string)
    requires lower == "friday 9:00pm - 9:00am (overnight)"
    ensures MatchesAt(lower, 0) && WordEnd(lower, 0) == 6
  {
    assert forall i :: 0 <= i < 6 ==> IsWordChar(lower[i]);
    assert IsSpace(lower[6]) && ClockAt(lower, 7);
    PatternChoices(lower, 0, 6, 7);
  }

  lemma FridayOvernightStep(t: string)
    requires Contains(Lower(t), "overnight") && StartWord(Lower(t)) == Some("friday")
    ensures MatchesDay([t], "saturday")
  {
    var friday, saturday := Days[4], Days[5];
    assert friday == "friday";
    OvernightNextDay(t, 4);
    assert MatchesDay([t], saturday);
    assert saturday == "saturday";
  }

  lemma LowerExample(t: string, lower: string)
    requires t == "Friday 9:00pm - 9:00am (Overnight)"
    requires lower == "friday 9:00pm - 9:00am (overnight)"
    ensures Lower(t) == lower
  {
    assert forall i :: 0 <= i < |t| && i != 0 && i != 24 ==> !IsUpper(t[i]);
  }

  // ---------------------------------------------------------------------
  // The parish filter

  /** A parish on the map: its raw fields and the four normalised lists. */
  datatype MapParish = MapParish(
    fields: map<string, Raw<string>>,
    sunday: seq<string>,
    daily: seq<string>,
    confession: seq<string>,
    adoration: seq<string>)

  function Field(fields: map<string, Raw<string>>, key: string): Raw<string> {
    if key in fields then fields[key] else Missing
  }

  /** `normalizeAll`: each list from its field, or from the alternative
      field when the first is falsy. */
  function NormalizeAll(fields: map<string, Raw<string>>): (p: MapParish)
    ensures p.fields == fields
    ensures Truthy(Field(fields, "sundayMassTimes")) ==> p.sunday == Normalize(Field(fields, "sundayMassTimes"))
    ensures !Truthy(Field(fields, "sundayMassTimes")) ==> p.sunday == Normalize(Field(fields, "sunday_mass_times"))
    ensures Truthy(Field(fields, "dailyMassTimes")) ==> p.daily == Normalize(Field(fields, "dailyMassTimes"))
    ensures !Truthy(Field(fields, "dailyMassTimes")) ==> p.daily == Normalize(Field(fields, "weekdayMassTimes"))
    ensures p.confession == Normalize(Field(fields, "confessionTimes"))
    ensures p.adoration == Normalize(Field(fields, "adorationTimes"))
    ensures Clean(p.sunday, {}) && Clean(p.daily, {}) && Clean(p.confession, {}) && Clean(p.adoration, {})
  {
    var sunday := Or(Field(fields, "sundayMassTimes"), Field(fields, "sunday_mass_times"));
    var daily := Or(Field(fields, "dailyMassTimes"), Field(fields, "weekdayMassTimes"));
    MapParish(
      fields,
      Normalize(sunday),
      Normalize(daily),
      Normalize(Field(fields, "confessionTimes")),
      Normalize(Field(fields, "adorationTimes")))
  }

  /** `times.some(t => t.toLowerCase().includes(day))`. */
  predicate AnyContains(times: seq<string>, day: string) {
    exists i :: 0 <= i < |times| && Contains(Lower(times[i]), day)
  }

  /** `typeMatch`: the event type requires the matching lists to be
      non-empty; any other type admits every parish. */
  predicate TypeMatch(p: MapParish, filterType: string) {
    if filterType == "mass" then |p.sunday| > 0 || |p.daily| > 0
    else if filterType == "confession" then |p.confession| > 0
    else if filterType == "adoration" then |p.adoration| > 0
    else true
  }

  /** `dayMatch`. */
  predicate DayMatch(p: MapParish, filterType: string, filterDay: string) {
    if filterDay == "any" then true
    else
      var day := Lower(filterDay);
      var hasSunday := AnyContains(p.sunday, day);
      var hasDaily := AnyContains(p.daily, day);
      if filterType == "mass" then
        if day == "saturday-vigil" then AnyContains(p.sunday, "saturday")
        else if day == "sunday" then hasSunday
        else hasDaily
      else if filterType == "confession" then AnyContains(p.confession, day)
      else if filterType == "adoration" then MatchesDay(p.adoration, day)
      else hasSunday || hasDaily || AnyContains(p.confession, day) || MatchesDay(p.adoration, day)
  }

  predicate Keep(p: MapParish, filterType: string, filterDay: string) {
    TypeMatch(p, filterType) && DayMatch(p, filterType, filterDay)
  }

  /** `filteredParishes`: the parishes that pass both gates, in their order. */
  function FilterParishes(ps: seq<MapParish>, filterType: string, filterDay: string): (r: seq<MapParish>)
    ensures forall p :: p in r <==> p in ps && Keep(p, filterType, filterDay)
    ensures IsSubsequence(r, ps)
  {
    if ps == [] then []
    else if Keep(ps[0], filterType, filterDay) then [ps[0]] + FilterParishes(ps[1..], filterType, filterDay)
    else FilterParishes(ps[1..], filterType, filterDay)
  }

  /** With type "any" and day "any" every parish is shown, in order. */
  lemma {:induction false} FilterAnyAny(ps: seq<MapParish>)
    ensures FilterParishes(ps, "any", "any") == ps
  {
    if ps != [] {
      FilterAnyAny(ps[1..]);
    }
  }

  /** The type gate: a shown parish has entries of the selected kind. */
  lemma FilterTypeGate(ps: seq<MapParish>, filterType: string, filterDay: string, p: MapParish)
    requires p in FilterParishes(ps, filterType, filterDay)
    ensures filterType == "mass" ==> |p.sunday| > 0 || |p.daily| > 0
    ensures filterType == "confession" ==> |p.confession| > 0
    ensures filterType == "adoration" ==> |p.adoration| > 0
  {
  }

  /** The Saturday vigil selector looks in the Sunday list for "saturday". */
  lemma SaturdayVigilRule(p: MapParish)
    ensures Keep(p, "mass", "saturday-vigil") <==>
              (|p.sunday| > 0 || |p.daily| > 0) && AnyContains(p.sunday, "saturday")
  {
    LowerOfLower("saturday-vigil");
  }

  /** Mass on a given day: Sunday looks in the Sunday list, every other day
      in the daily list. */
  lemma MassDayRule(p: MapParish, day: string)
    requires day != "any" && day != "saturday-vigil" && !HasUpper(day)
    ensures Keep(p, "mass", day) <==>
              (|p.sunday| > 0 || |p.daily| > 0)
              && (if day == "sunday" then AnyContains(p.sunday, day) else AnyContains(p.daily, day))
  {
    LowerOfLower(day);
  }

  /** With type "any", a parish shows on a day when its Sunday, daily or
      confession entries name it or its adoration entries match it. */
  lemma AnyTypeDayRule(p: MapParish, day: string)
    requires day != "any" && !HasUpper(day)
    ensures Keep(p, "any", day) <==>
              AnyContains(p.sunday, day) || AnyContains(p.daily, day)
              || AnyContains(p.confession, day) || MatchesDay(p.adoration, day)
  {
    LowerOfLower(day);
  }

  // ---------------------------------------------------------------------
  // getPopupText

  /** Black text on the white and rose backgrounds, white on the others;
      the light-mode flag plays no part. */
  function PopupText(lightMode: bool, colorKey: string): (r: string)
    ensures r == "#000000" <==> colorKey == "WHITE" || colorKey == "ROSE"
    ensures r != "#000000" ==> r == "#ffffff"
  {
    if colorKey == "WHITE" || colorKey == "ROSE" then "#000000" else "#ffffff"
  }
}
