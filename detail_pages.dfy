/** What the diocese, deanery and family pages share: finding the record
    whose derived slug is the address's slug, the photo list and its first
    photo, and a slug picked by position. */
module DetailPages {
  import opened Text
  import opened Values
  import opened Slug

  /** The slug a page derives from a record:
      `String(row[slugKey] || row[nameKey] || "")` in canonical form. */
  function RowSlug(row: Row, slugKey: string, nameKey: string): (r: string)
    ensures IsSlugShaped(r)
  {
    SlugOf(FieldOr(row, slugKey, nameKey))
  }

  function RowSlugs(list: seq<Row>, slugKey: string, nameKey: string): (r: seq<string>)
    ensures |r| == |list|
    ensures forall i :: 0 <= i < |list| ==> r[i] == RowSlug(list[i], slugKey, nameKey)
  {
    seq(|list|, i requires 0 <= i < |list| => RowSlug(list[i], slugKey, nameKey))
  }

  /** `list.find(...) ?? null`: the first record whose derived slug equals the
      address's slug as it stands, without lower-casing it. */
  function FindBySlug(list: seq<Row>, slugKey: string, nameKey: string, slug: string): (r: Option<Row>)
    ensures r.None? <==> forall i :: 0 <= i < |list| ==> RowSlug(list[i], slugKey, nameKey) != slug
    ensures r.Some? ==> exists i :: 0 <= i < |list| && r.value == list[i]
                          && RowSlug(list[i], slugKey, nameKey) == slug
                          && forall j :: 0 <= j < i ==> RowSlug(list[j], slugKey, nameKey) != slug
  {
    match IndexOf(RowSlugs(list, slugKey, nameKey), slug)
    case Some(i) => Some(list[i])
    case None => None
  }

  /** Every record is found at its own derived slug unless an earlier record
      derives the same one. */
  lemma FindAtOwnSlug(list: seq<Row>, slugKey: string, nameKey: string, i: nat)
    requires i < |list|
    requires forall j :: 0 <= j < i ==> RowSlug(list[j], slugKey, nameKey) != RowSlug(list[i], slugKey, nameKey)
    ensures FindBySlug(list, slugKey, nameKey, RowSlug(list[i], slugKey, nameKey)) == Some(list[i])
  {
    IndexOfFirst(RowSlugs(list, slugKey, nameKey), i);
  }

  /** Derived slugs are lower case and the address's slug is compared as it
      stands, so an address with a capital letter finds nothing. */
  lemma FindBySlugUpper(list: seq<Row>, slugKey: string, nameKey: string, slug: string)
    requires HasUpper(slug)
    ensures FindBySlug(list, slugKey, nameKey, slug) == None
  {
    forall i | 0 <= i < |list|
      ensures RowSlug(list[i], slugKey, nameKey) != slug
    {
      SlugOfNeverUpper(FieldOr(list[i], slugKey, nameKey), slug);
    }
  }

  /** `String(row[key] || "").split(/;|\n/).map((p) => p.trim()).filter(Boolean)`. */
  function PhotoList(row: Row, key: string): (r: seq<string>)
    ensures Clean(r, {';', '\n'})
  {
    SplitClean(FieldText(row, key), {';', '\n'})
  }

  /** The banner of the deanery and family pages,
      `photos.length > 0 ? photos[0] : null` over the photo list of `key`:
      the first photo, when there is one. */
  function PhotoBanner(row: Row, key: string): (r: Option<string>)
    ensures r.None? <==> PhotoList(row, key) == []
    ensures r.Some? ==> r.value == PhotoList(row, key)[0] && r.value != "" && IsTrimmed(r.value)
  {
    var photos := PhotoList(row, key);
    if |photos| > 0 then Some(photos[0]) else None
  }

  /** Photos stored joined by `;` or by line feeds come back one by one, in
      order, and the banner is the first of them; an absent field gives no
      photo and no banner. */
  lemma PhotoListJoined(row: Row, key: string, photos: seq<string>, d: char)
    requires |photos| >= 1 && d in {';', '\n'} && Clean(photos, {';', '\n'})
    requires key in row && row[key] == Join(photos, d)
    ensures PhotoList(row, key) == photos
    ensures PhotoBanner(row, key) == Some(photos[0])
  {
    SplitCleanJoin(photos, d, {';', '\n'});
  }

  lemma PhotoListAbsent(row: Row, key: string)
    requires key !in row
    ensures PhotoList(row, key) == [] && PhotoBanner(row, key) == None
  {
  }

  /** `slugs[i] || null`: the slug at position `i` when there is a non-empty
      one. */
  function SlugAt(slugs: seq<string>, i: nat): (r: Option<string>)
    ensures r.Some? <==> i < |slugs| && slugs[i] != ""
    ensures r.Some? ==> r.value == slugs[i]
  {
    if i < |slugs| && slugs[i] != "" then Some(slugs[i]) else None
  }

  /** A list entry: a name and the slug it links to, if any. */
  datatype Link = Link(name: string, slug: Option<string>)

  /** `names.map((name, i) => ({name, slug: slugs[i] || null}))`. */
  function PairAt(names: seq<string>, slugs: seq<string>): (r: seq<Link>)
    ensures |r| == |names|
    ensures forall i :: 0 <= i < |r| ==> r[i].name == names[i] && r[i].slug == SlugAt(slugs, i)
  {
    seq(|names|, i requires 0 <= i < |names| => Link(names[i], SlugAt(slugs, i)))
  }

  /** Three pieces joined by `;` split back into the same three pieces. */
  lemma SplitThree(x: string, y: string, z: string, delims: set<char>)
    requires ';' in delims && Free(x, delims) && Free(y, delims) && Free(z, delims)
    ensures SplitOn(x + [';'] + y + [';'] + z, delims) == [x, y, z]
  {
    var rest := y + [';'] + z;
    assert x + [';'] + y + [';'] + z == x + [';'] + rest;
    SplitPiece(x, ';', rest, delims);
    SplitPiece(y, ';', z, delims);
    SplitLastPiece(z, delims);
  }

  /** Trimming and filtering drops an empty piece between two clean ones. */
  lemma CleanAroundEmpty(x: string, y: string)
    requires x != "" && y != "" && IsTrimmed(x) && IsTrimmed(y)
    ensures CleanList([x, "", y]) == [x, y]
  {
    TrimEachTrimmed([x, "", y]);
    assert NonEmptyOnly([x, "", y]) == [x] + NonEmptyOnly([y]);
  }

  lemma SplitCleanThree(x: string, y: string, z: string, delims: set<char>)
    requires ';' in delims && Free(x, delims) && Free(y, delims) && Free(z, delims)
    requires x != "" && y != "" && z != "" && IsTrimmed(x) && IsTrimmed(y) && IsTrimmed(z)
    ensures SplitClean(x + [';'] + y + [';'] + z, delims) == [x, y, z]
  {
    SplitThree(x, y, z, delims);
    CleanListKeeps([x, y, z]);
  }

  lemma SplitCleanDropsEmpty(x: string, y: string, delims: set<char>)
    requires ';' in delims && Free(x, delims) && Free(y, delims)
    requires x != "" && y != "" && IsTrimmed(x) && IsTrimmed(y)
    ensures SplitClean(x + [';'] + "" + [';'] + y, delims) == [x, y]
  {
    SplitThree(x, "", y, delims);
    CleanAroundEmpty(x, y);
  }

  /** Three names against three slugs, the middle name and slug empty: the
      empty slug links nothing and the others link their own names. */
  lemma PairAtEmptyMiddle(x: string, z: string, sx: string, sz: string)
    requires sx != "" && sz != ""
    ensures PairAt([x, "", z], [sx, "", sz]) == [Link(x, Some(sx)), Link("", None), Link(z, Some(sz))]
  {
  }

  /** Three names against two slugs: the last name gets none. */
  lemma PairAtShort(x: string, y: string, z: string, sx: string, sy: string)
    requires sx != "" && sy != ""
    ensures PairAt([x, y, z], [sx, sy]) == [Link(x, Some(sx)), Link(y, Some(sy)), Link(z, None)]
  {
  }
}
