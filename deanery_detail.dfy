/** The deanery page: the deanery found by slug, its photos and banner, the
    parish and family lists that pair names and slugs by position without
    filtering either, the nationalities and the parish count. */
module DeaneryDetail {
  import opened Text
  import opened Values
  import opened DetailPages

  /** The pattern `/;|\n/` that every list on this page is split on. */
  const Delims: set<char> := {';', '\n'}

  /** The field holding the photos: the page shows `PhotoList` of it and
      the `PhotoBanner` above them. */
  const PhotoKey: string := "deaneryPhotos"

  /** The deanery whose `deanerySlug` (or, failing that, `deaneryName`) gives
      the address's slug. */
  function FindDeanery(list: seq<Row>, slug: string): Option<Row> {
    FindBySlug(list, "deanerySlug", "deaneryName", slug)
  }

  /** `String(names || "").split(/;|\n/).map((p, i) => ...)`: one entry per
      segment, empty ones included, named by the trimmed segment and linked
      to the trimmed segment at the same position of the slug field, or to
      nothing when that is missing or empty. */
  function PairByPosition(namesStr: string, slugsStr: string): (r: seq<Link>)
    ensures var names := SplitOn(namesStr, Delims);
            |r| == |names|
            && forall i :: 0 <= i < |r| ==>
                 r[i].name == Trim(names[i]) && r[i].slug == SlugAt(TrimEach(SplitOn(slugsStr, Delims)), i)
  {
    PairAt(TrimEach(SplitOn(namesStr, Delims)), TrimEach(SplitOn(slugsStr, Delims)))
  }

  function ParishList(deanery: Row): seq<Link> {
    PairByPosition(FieldText(deanery, "parishesListByDeaneryAlpha"),
                   FieldText(deanery, "parishesListByDeaneryAlphaSlug"))
  }

  function FamilyList(deanery: Row): seq<Link> {
    PairByPosition(FieldText(deanery, "familyListByDeaneryAlpha"),
                   FieldText(deanery, "familyListByDeaneryAlphaSlug"))
  }

  /** Names and slugs stored joined by `;` pair up by position, empty names
      included, so every name keeps the slug written beside it. */
  lemma PairByPositionJoined(names: seq<string>, slugs: seq<string>)
    requires |names| >= 1 && |slugs| >= 1
    requires forall k :: 0 <= k < |names| ==> Free(names[k], Delims)
    requires forall k :: 0 <= k < |slugs| ==> Free(slugs[k], Delims)
    ensures var r := PairByPosition(Join(names, ';'), Join(slugs, ';'));
            |r| == |names|
            && forall i :: 0 <= i < |r| ==>
                 r[i].name == Trim(names[i]) && r[i].slug == SlugAt(TrimEach(slugs), i)
  {
    SplitJoin(names, ';', Delims);
    SplitJoin(slugs, ';', Delims);
  }

  /** An absent list field still gives one entry, with an empty name and,
      when the slug field is absent too, no link. */
  lemma ParishListAbsent(deanery: Row)
    requires "parishesListByDeaneryAlpha" !in deanery && "parishesListByDeaneryAlphaSlug" !in deanery
    ensures ParishList(deanery) == [Link("", None)]
  {
    assert SplitOn("", Delims) == [""];
    assert Trim("") == "";
  }

  /** An empty name keeps its place: `x;;y` with `sx;;sy` gives three
      entries, and `y` stays linked to `sy`. */
  lemma PairByPositionKeepsEmptyName(x: string, y: string, sx: string, sy: string)
    requires x != "" && y != "" && sx != "" && sy != ""
    requires IsTrimmed(x) && IsTrimmed(y) && IsTrimmed(sx) && IsTrimmed(sy)
    requires Free(x, Delims) && Free(y, Delims) && Free(sx, Delims) && Free(sy, Delims)
    ensures PairByPosition(x + [';'] + "" + [';'] + y, sx + [';'] + "" + [';'] + sy)
            == [Link(x, Some(sx)), Link("", None), Link(y, Some(sy))]
  {
    var n, m := x + [';'] + "" + [';'] + y, sx + [';'] + "" + [';'] + sy;
    SplitThree(x, "", y, Delims);
    SplitThree(sx, "", sy, Delims);
    TrimEachTrimmed([x, "", y]);
    TrimEachTrimmed([sx, "", sy]);
    assert TrimEach(SplitOn(n, Delims)) == [x, "", y];
    assert TrimEach(SplitOn(m, Delims)) == [sx, "", sy];
    assert PairByPosition(n, m) == PairAt([x, "", y], [sx, "", sy]);
    PairAtEmptyMiddle(x, y, sx, sy);
  }

  /** `nationalities ? nationalities.split(/;|\n/).map(trim).filter(Boolean) : []`. */
  function Nationalities(deanery: Row): (r: seq<string>)
    ensures Clean(r, Delims)
  {
    if HasText(deanery, "deaneryNationalities") then SplitClean(deanery["deaneryNationalities"], Delims) else []
  }

  /** The falsy guard changes nothing: an absent or empty field splits into
      no nationality anyway. */
  lemma NationalitiesGuard(deanery: Row)
    ensures Nationalities(deanery) == SplitClean(FieldText(deanery, "deaneryNationalities"), Delims)
  {
  }

  /** `numParishesInDeanery ?? 0`. */
  function ParishCount(numParishesInDeanery: Option<int>): (r: int)
    ensures numParishesInDeanery.Some? ==> r == numParishesInDeanery.value
    ensures numParishesInDeanery.None? ==> r == 0
  {
    Coalesce(numParishesInDeanery, 0)
  }
}
