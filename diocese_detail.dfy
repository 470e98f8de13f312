/** The diocese page: the diocese found by slug, its photos, the banner that
    prefers the cathedral's photo, and the parish, family and deanery lists
    built from parallel name and slug fields. */
module DioceseDetail {
  import opened Text
  import opened Values
  import opened DetailPages

  /** The diocese whose `dioceseSlug` (or, failing that, `dioceseName`) gives
      the address's slug. */
  function FindDiocese(list: seq<Row>, slug: string): Option<Row> {
    FindBySlug(list, "dioceseSlug", "dioceseName", slug)
  }

  function Photos(diocese: Row): (r: seq<string>)
    ensures Clean(r, {';', '\n'})
  {
    PhotoList(diocese, "diocesePhotos")
  }

  /** `p.parishName?.trim() === cathedral.trim()`: a parish without a name
      never matches. */
  predicate NamedAs(p: Row, cathedral: string) {
    "parishName" in p && Trim(p["parishName"]) == Trim(cathedral)
  }

  /** `parishes.find((p) => p.parishName?.trim() === cathedral.trim())`. */
  function CathedralParish(parishes: seq<Row>, cathedral: string): (r: Option<Row>)
    ensures r.None? <==> forall i :: 0 <= i < |parishes| ==> !NamedAs(parishes[i], cathedral)
    ensures r.Some? ==> exists i :: 0 <= i < |parishes| && r.value == parishes[i] && NamedAs(parishes[i], cathedral)
                          && forall j :: 0 <= j < i ==> !NamedAs(parishes[j], cathedral)
    ensures r.Some? ==> r.value in parishes && NamedAs(r.value, cathedral)
  {
    var named := (p: Row) => NamedAs(p, cathedral);
    assert forall i :: 0 <= i < |parishes| ==> named(parishes[i]) == NamedAs(parishes[i], cathedral);
    Find(parishes, named)
  }

  /** `parishPhotos.split(";")[0].trim()` of the cathedral parish, when the
      diocese names a cathedral and that parish has photos; `None` for the
      `null` the banner starts from. */
  function CathedralPhoto(diocese: Row, parishes: seq<Row>): Option<string> {
    if HasText(diocese, "dioceseCathedral") then
      match CathedralParish(parishes, diocese["dioceseCathedral"])
      case Some(p) => if HasText(p, "parishPhotos") then Some(Trim(SplitOn(p["parishPhotos"], {';'})[0])) else None
      case None => None
    else None
  }

  /** `banner`: the cathedral's first photo unless that is absent or empty,
      then the diocese's own first photo; it stays `""` when the cathedral's
      first segment was blank and the diocese has no photo. */
  function Banner(diocese: Row, parishes: seq<Row>): (r: Option<string>)
    ensures var b := CathedralPhoto(diocese, parishes);
            b.Some? && b.value != "" ==> r == b
    ensures var b := CathedralPhoto(diocese, parishes);
            (b.None? || b.value == "") && Photos(diocese) != [] ==> r == Some(Photos(diocese)[0])
    ensures var b := CathedralPhoto(diocese, parishes);
            (b.None? || b.value == "") && Photos(diocese) == [] ==> r == b
  {
    var b := CathedralPhoto(diocese, parishes);
    var photos := Photos(diocese);
    if (b.None? || b.value == "") && |photos| > 0 then Some(photos[0]) else b
  }

  /** A diocese with photos always has a non-empty banner, and a non-empty
      banner is either its own first photo or the first photo of the first
      parish named as its cathedral. */
  lemma BannerSource(diocese: Row, parishes: seq<Row>)
    ensures Photos(diocese) != [] ==> Banner(diocese, parishes).Some? && Banner(diocese, parishes).value != ""
    ensures var r := Banner(diocese, parishes);
            r.Some? && r.value != "" ==>
              r.value in Photos(diocese)
              || (HasText(diocese, "dioceseCathedral")
                  && exists i :: 0 <= i < |parishes| && NamedAs(parishes[i], diocese["dioceseCathedral"])
                       && (forall j :: 0 <= j < i ==> !NamedAs(parishes[j], diocese["dioceseCathedral"]))
                       && HasText(parishes[i], "parishPhotos")
                       && r.value == Trim(SplitOn(parishes[i]["parishPhotos"], {';'})[0]))
  {
    var b := CathedralPhoto(diocese, parishes);
    var r := Banner(diocese, parishes);
    if r.Some? && r.value != "" && r.value !in Photos(diocese) {
      assert r == b;
      CathedralPhotoSource(diocese, parishes);
    }
  }

  /** A cathedral photo comes from the first parish named as the cathedral. */
  lemma CathedralPhotoSource(diocese: Row, parishes: seq<Row>)
    ensures var b := CathedralPhoto(diocese, parishes);
            b.Some? ==>
              HasText(diocese, "dioceseCathedral")
              && exists i :: 0 <= i < |parishes| && NamedAs(parishes[i], diocese["dioceseCathedral"])
                   && (forall j :: 0 <= j < i ==> !NamedAs(parishes[j], diocese["dioceseCathedral"]))
                   && HasText(parishes[i], "parishPhotos")
                   && b.value == Trim(SplitOn(parishes[i]["parishPhotos"], {';'})[0])
  {
    if CathedralPhoto(diocese, parishes).Some? {
      var c := diocese["dioceseCathedral"];
      var p := CathedralParish(parishes, c).value;
      var i :| 0 <= i < |parishes| && p == parishes[i] && NamedAs(parishes[i], c)
               && forall j :: 0 <= j < i ==> !NamedAs(parishes[j], c);
      assert HasText(parishes[i], "parishPhotos");
    }
  }

  /** One entry of a list on the diocese page. */
  datatype ListItem = ListItem(name: string, slug: Option<string>, city: Option<string>)

  /** The city shown next to a slug: `parishCityCounty` of the first parish
      whose `parishSlug` is exactly that slug, when it is truthy. */
  function CityOf(parishes: seq<Row>, slug: Option<string>): (r: Option<string>)
    ensures r.Some? ==> slug.Some? && r.value != ""
                        && exists i :: 0 <= i < |parishes| && Get(parishes[i], "parishSlug") == slug
                             && Get(parishes[i], "parishCityCounty") == r
                             && forall j :: 0 <= j < i ==> Get(parishes[j], "parishSlug") != slug
    ensures forall i :: 0 <= i < |parishes| && slug.Some? && Get(parishes[i], "parishSlug") == slug
                        && (forall j :: 0 <= j < i ==> Get(parishes[j], "parishSlug") != slug) ==>
                          r == if HasText(parishes[i], "parishCityCounty") then Get(parishes[i], "parishCityCounty") else None
    ensures slug.None? || (forall i :: 0 <= i < |parishes| ==> Get(parishes[i], "parishSlug") != slug) ==> r.None?
  {
    if slug.None? then None
    else
      var isSlug := (p: Row) => Get(p, "parishSlug") == slug;
      assert forall i :: 0 <= i < |parishes| ==> isSlug(parishes[i]) == (Get(parishes[i], "parishSlug") == slug);
      FindFirstAll(parishes, isSlug);
      match Find(parishes, isSlug)
      case Some(p) => if HasText(p, "parishCityCounty") then Some(p["parishCityCounty"]) else None
      case None => None
  }

  /** `listFromRow(namesStr, slugsStr)`: names split on `;`, trimmed and
      filtered; slugs split and trimmed but not filtered; the `i`-th kept
      name takes the `i`-th slug segment. */
  function ListFromRow(parishes: seq<Row>, namesStr: string, slugsStr: string): (r: seq<ListItem>)
    ensures var names := SplitClean(namesStr, {';'});
            |r| == |names|
            && forall i :: 0 <= i < |r| ==>
                 r[i].name == names[i]
                 && r[i].slug == SlugAt(TrimEach(SplitOn(slugsStr, {';'})), i)
                 && r[i].city == CityOf(parishes, r[i].slug)
  {
    var names := SplitClean(namesStr, {';'});
    var slugs := TrimEach(SplitOn(slugsStr, {';'}));
    seq(|names|, i requires 0 <= i < |names| =>
      var slugValue := SlugAt(slugs, i);
      ListItem(names[i], slugValue, CityOf(parishes, slugValue)))
  }

  /** An absent names field (read as `""`) gives an empty list. */
  lemma ListFromRowAbsent(parishes: seq<Row>, slugsStr: string)
    ensures ListFromRow(parishes, "", slugsStr) == []
  {
  }

  /** With no empty name, names and slugs stored joined by `;` pair up by
      position: every name keeps the slug written beside it. */
  lemma ListFromRowJoined(parishes: seq<Row>, names: seq<string>, slugs: seq<string>)
    requires |names| >= 1 && |slugs| >= 1 && Clean(names, {';'})
    requires forall k :: 0 <= k < |slugs| ==> Free(slugs[k], {';'}) && IsTrimmed(slugs[k])
    ensures var r := ListFromRow(parishes, Join(names, ';'), Join(slugs, ';'));
            |r| == |names|
            && forall i :: 0 <= i < |r| ==> r[i].name == names[i] && r[i].slug == SlugAt(slugs, i)
  {
    SplitCleanJoin(names, ';', {';'});
    SplitJoin(slugs, ';', {';'});
    TrimEachTrimmed(slugs);
  }

  /** Names are filtered but slugs are not, so an empty name moves every
      later name onto the slug of an earlier position: with names `x;;y` and
      slugs `sx;;sy`, `y` links to nothing rather than to `sy`. */
  lemma ListFromRowSkipsEmptyName(parishes: seq<Row>, x: string, y: string, sx: string, sy: string)
    requires x != "" && y != "" && sx != "" && sy != ""
    requires IsTrimmed(x) && IsTrimmed(y) && IsTrimmed(sx) && IsTrimmed(sy)
    requires Free(x, {';'}) && Free(y, {';'}) && Free(sx, {';'}) && Free(sy, {';'})
    ensures var r := ListFromRow(parishes, x + [';'] + "" + [';'] + y, sx + [';'] + "" + [';'] + sy);
            |r| == 2 && r[0].name == x && r[0].slug == Some(sx) && r[1].name == y && r[1].slug == None
  {
    SplitThree(x, "", y, {';'});
    SplitThree(sx, "", sy, {';'});
    CleanAroundEmpty(x, y);
    TrimEachTrimmed([sx, "", sy]);
  }
}
