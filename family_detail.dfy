/** The family page: the family found by slug, its photos and banner, the
    parish list that filters names and slugs before pairing them by position,
    the heading count, the mass statistics and the nationalities. */
module FamilyDetail {
  import opened Text
  import opened Values
  import opened DetailPages

  /** The pattern `/;|\n/` that photos and the parish lists are split on. */
  const Delims: set<char> := {';', '\n'}

  /** The pattern `/[,;|\n]/` that nationalities are split on. */
  const NationalityDelims: set<char> := {',', ';', '|', '\n'}

  /** The field holding the photos: the page shows `PhotoList` of it and
      the `PhotoBanner` above them. */
  const PhotoKey: string := "familyPhotos"

  /** The family whose `familySlug` (or, failing that, `familyName`) gives
      the address's slug. */
  function FindFamily(list: seq<Row>, slug: string): Option<Row> {
    FindBySlug(list, "familySlug", "familyName", slug)
  }

  /** `parishNames.map((name, idx) => ({name, slug: parishSlugs[idx] || null}))`
      where both lists were split, trimmed and filtered: entry `i` takes the
      `i`-th non-empty slug, and a name past the last slug gets none. */
  function PairFiltered(namesStr: string, slugsStr: string): (r: seq<Link>)
    ensures var names, slugs := SplitClean(namesStr, Delims), SplitClean(slugsStr, Delims);
            |r| == |names|
            && forall i :: 0 <= i < |r| ==>
                 r[i].name == names[i]
                 && (i < |slugs| ==> r[i].slug == Some(slugs[i]))
                 && (i >= |slugs| ==> r[i].slug == None)
  {
    PairAt(SplitClean(namesStr, Delims), SplitClean(slugsStr, Delims))
  }

  function ParishList(family: Row): seq<Link> {
    PairFiltered(FieldText(family, "parishesListByFamilyAlpha"),
                 FieldText(family, "parishesListByFamilyAlphaSlug"))
  }

  /** Clean names and slugs stored joined by `;` pair up by position. */
  lemma PairFilteredJoined(names: seq<string>, slugs: seq<string>)
    requires |names| >= 1 && |slugs| >= 1 && Clean(names, Delims) && Clean(slugs, Delims)
    ensures var r := PairFiltered(Join(names, ';'), Join(slugs, ';'));
            |r| == |names|
            && forall i :: 0 <= i < |r| ==>
                 r[i].name == names[i] && r[i].slug == if i < |slugs| then Some(slugs[i]) else None
  {
    SplitCleanJoin(names, ';', Delims);
    SplitCleanJoin(slugs, ';', Delims);
  }

  /** Slugs are filtered too, so an empty slug segment moves every later slug
      one name earlier: with names `x;y;z` and slugs `sx;;sz`, `y` links to
      `sz` and `z` to nothing. */
  lemma PairFilteredShiftsSlugs(x: string, y: string, z: string, sx: string, sz: string)
    requires x != "" && y != "" && z != "" && sx != "" && sz != ""
    requires IsTrimmed(x) && IsTrimmed(y) && IsTrimmed(z) && IsTrimmed(sx) && IsTrimmed(sz)
    requires Free(x, Delims) && Free(y, Delims) && Free(z, Delims) && Free(sx, Delims) && Free(sz, Delims)
    ensures PairFiltered(x + [';'] + y + [';'] + z, sx + [';'] + "" + [';'] + sz)
            == [Link(x, Some(sx)), Link(y, Some(sz)), Link(z, None)]
  {
    SplitCleanThree(x, y, z, Delims);
    SplitCleanDropsEmpty(sx, sz, Delims);
    PairAtShort(x, y, z, sx, sz);
  }

  /** The heading count `numParishesInFamily ?? parishList.length`. */
  function HeadingCount(numParishesInFamily: Option<int>, parishList: seq<Link>): (r: int)
    ensures numParishesInFamily.Some? ==> r == numParishesInFamily.value
    ensures numParishesInFamily.None? ==> r == |parishList|
  {
    Coalesce(numParishesInFamily, |parishList|)
  }

  /** The four mass statistics, each `?? 0`, in the order shown. */
  function MassStatistics(sunday: Option<int>, vigil: Option<int>, daily: Option<int>,
                          total: Option<int>): (r: seq<(string, int)>)
    ensures |r| == 4
    ensures r[0].0 == "Sunday Masses" && r[1].0 == "Saturday Vigil Masses"
            && r[2].0 == "Daily Masses" && r[3].0 == "Total Masses"
    ensures forall k :: 0 <= k < 4 ==> r[k].1 == Coalesce([sunday, vigil, daily, total][k], 0)
  {
    [("Sunday Masses", Coalesce(sunday, 0)), ("Saturday Vigil Masses", Coalesce(vigil, 0)),
     ("Daily Masses", Coalesce(daily, 0)), ("Total Masses", Coalesce(total, 0))]
  }

  /** The nationalities section: hidden (`None`) when the field is falsy,
      otherwise the field split on `,`, `;`, `|` and line feeds, trimmed and
      filtered. */
  function Nationalities(family: Row): (r: Option<seq<string>>)
    ensures r.Some? <==> HasText(family, "familyNationalities")
    ensures r.Some? ==> Clean(r.value, NationalityDelims)
  {
    if HasText(family, "familyNationalities") then Some(SplitClean(family["familyNationalities"], NationalityDelims))
    else None
  }

  /** Nationalities stored joined by any of the four separators come back
      one by one, in order. */
  lemma NationalitiesJoined(family: Row, ns: seq<string>, d: char)
    requires |ns| >= 1 && d in NationalityDelims && Clean(ns, NationalityDelims)
    requires "familyNationalities" in family && family["familyNationalities"] == Join(ns, d)
    ensures Nationalities(family) == Some(ns)
  {
    SplitCleanJoin(ns, d, NationalityDelims);
    JoinStartsWith(ns, d);
  }

  lemma JoinStartsWith(parts: seq<string>, d: char)
    requires |parts| >= 1 && parts[0] != ""
    ensures Join(parts, d) != ""
  {
  }
}
