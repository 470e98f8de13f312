/** The search page: one flat index built from the parish and diocese lists,
    with family and deanery entries synthesised from parish fields and kept
    first-seen-wins by slug; the ranked results split back into four
    buckets by type; and the link and label drawn for each result. */
module Search {
  import opened Values

  datatype Kind = ParishKind | FamilyKind | DeaneryKind | DioceseKind

  /** The `type` string an index entry carries. */
  function TypeName(k: Kind): string {
    match k
    case ParishKind => "parish"
    case FamilyKind => "family"
    case DeaneryKind => "deanery"
    case DioceseKind => "diocese"
  }

  /** The key of the results object whose bucket holds entries of kind `k`. */
  function BucketName(k: Kind): string {
    match k
    case ParishKind => "parishes"
    case FamilyKind => "families"
    case DeaneryKind => "deaneries"
    case DioceseKind => "dioceses"
  }

  /** The position of a kind in the index: parishes, then families, then
      deaneries, then dioceses. */
  function Rank(k: Kind): nat {
    match k
    case ParishKind => 0
    case FamilyKind => 1
    case DeaneryKind => 2
    case DioceseKind => 3
  }

  /** An index entry `{type, name, slug, city}`; a field copied from an
      absent record field is `None` (`undefined`), and only parish entries
      have a city. */
  datatype Entry = Entry(kind: Kind, name: Option<string>, slug: Option<string>, city: Option<string>)

  /** The entry `parishes.map` makes for one parish. */
  function ParishEntry(p: Row): Entry {
    Entry(ParishKind, Get(p, "parishName"), Get(p, "parishSlug"), Get(p, "parishCityCounty"))
  }

  function ParishEntries(ps: seq<Row>): (r: seq<Entry>)
    ensures |r| == |ps|
    ensures forall i :: 0 <= i < |ps| ==> r[i] == ParishEntry(ps[i])
    ensures forall e :: e in r ==> e.kind == ParishKind
  {
    seq(|ps|, i requires 0 <= i < |ps| => ParishEntry(ps[i]))
  }

  /** Where a synthesised entry comes from: its kind, the record fields that
      give its name and its slug, and whether a falsy name skips the record
      (families and deaneries) or not (dioceses). */
  datatype Source = Source(kind: Kind, nameKey: string, slugKey: string, gated: bool)

  const FamilySource := Source(FamilyKind, "parishFamily", "parishFamilySlug", true)
  const DeanerySource := Source(DeaneryKind, "parishDeanery", "parishDeanerySlug", true)
  const DioceseSource := Source(DioceseKind, "dioceseName", "dioceseSlug", false)

  /** The record may add an entry at all. */
  predicate Offers(src: Source, row: Row) {
    !src.gated || HasText(row, src.nameKey)
  }

  /** The entry a record would add; the slug is also the map key. */
  function Make(src: Source, row: Row): Entry {
    Entry(src.kind, Get(row, src.nameKey), Get(row, src.slugKey), None)
  }

  function MakeAll(src: Source, rows: seq<Row>): (r: seq<Entry>)
    ensures |r| == |rows|
    ensures forall i :: 0 <= i < |rows| ==> r[i] == Make(src, rows[i])
  {
    seq(|rows|, i requires 0 <= i < |rows| => Make(src, rows[i]))
  }

  /** The values of a `Map` filled by the has-then-set loop over `rows`,
      in insertion order, when the keys in `seen` are already taken. */
  function Synth(src: Source, rows: seq<Row>, seen: set<Option<string>>): (r: seq<Entry>)
    ensures forall e :: e in r ==> e.kind == src.kind && e.city == None
  {
    if rows == [] then []
    else
      var e := Make(src, rows[0]);
      if Offers(src, rows[0]) && e.slug !in seen then [e] + Synth(src, rows[1..], seen + {e.slug})
      else Synth(src, rows[1..], seen)
  }

  /** `searchIndex`: every parish, then the families, the deaneries and the
      dioceses, each group in first-insertion order. */
  function SearchIndex(parishes: seq<Row>, dioceses: seq<Row>): seq<Entry> {
    if |parishes| == 0 && |dioceses| == 0 then []
    else ParishEntries(parishes) + Synth(FamilySource, parishes, {})
         + Synth(DeanerySource, parishes, {}) + Synth(DioceseSource, dioceses, {})
  }

  /** The `useMemo` body that builds the index: the parish entries, then the
      values of the three maps filled by the two `forEach` loops. */
  method BuildSearchIndex(parishes: seq<Row>, dioceses: seq<Row>) returns (index: seq<Entry>)
    ensures index == SearchIndex(parishes, dioceses)
  {
    if |parishes| == 0 && |dioceses| == 0 {
      return [];
    }
    var families, deaneries := CollectGroups(parishes);
    var dioceseValues := CollectDioceses(dioceses);
    index := ParishEntries(parishes) + families + deaneries + dioceseValues;
  }

  /** The `forEach` over parishes with its two has-then-set checks; each
      insertion-ordered map is kept as its key set and its values in
      insertion order. */
  method CollectGroups(parishes: seq<Row>) returns (families: seq<Entry>, deaneries: seq<Entry>)
    ensures families == Synth(FamilySource, parishes, {})
    ensures deaneries == Synth(DeanerySource, parishes, {})
  {
    families, deaneries := [], [];
    var familySlugs, deanerySlugs := {}, {};
    var i := 0;
    while i < |parishes|
      invariant 0 <= i <= |parishes|
      invariant families + Synth(FamilySource, parishes[i..], familySlugs) == Synth(FamilySource, parishes, {})
      invariant deaneries + Synth(DeanerySource, parishes[i..], deanerySlugs) == Synth(DeanerySource, parishes, {})
    {
      var p := parishes[i];
      assert parishes[i..][0] == p && parishes[i..][1..] == parishes[i + 1..];
      if HasText(p, "parishFamily") && Get(p, "parishFamilySlug") !in familySlugs {
        SynthStep(families, FamilySource, parishes[i..], familySlugs);
        families := families + [Entry(FamilyKind, Get(p, "parishFamily"), Get(p, "parishFamilySlug"), None)];
        familySlugs := familySlugs + {Get(p, "parishFamilySlug")};
      } else {
        SynthSkip(FamilySource, parishes[i..], familySlugs);
      }
      if HasText(p, "parishDeanery") && Get(p, "parishDeanerySlug") !in deanerySlugs {
        SynthStep(deaneries, DeanerySource, parishes[i..], deanerySlugs);
        deaneries := deaneries + [Entry(DeaneryKind, Get(p, "parishDeanery"), Get(p, "parishDeanerySlug"), None)];
        deanerySlugs := deanerySlugs + {Get(p, "parishDeanerySlug")};
      } else {
        SynthSkip(DeanerySource, parishes[i..], deanerySlugs);
      }
      i := i + 1;
    }
    assert parishes[i..] == [];
  }

  /** The `forEach` over dioceses, keyed by `dioceseSlug` with no name
      check. */
  method CollectDioceses(dioceses: seq<Row>) returns (values: seq<Entry>)
    ensures values == Synth(DioceseSource, dioceses, {})
  {
    values := [];
    var slugs := {};
    var j := 0;
    while j < |dioceses|
      invariant 0 <= j <= |dioceses|
      invariant values + Synth(DioceseSource, dioceses[j..], slugs) == Synth(DioceseSource, dioceses, {})
    {
      var d := dioceses[j];
      assert dioceses[j..][0] == d && dioceses[j..][1..] == dioceses[j + 1..];
      if Get(d, "dioceseSlug") !in slugs {
        SynthStep(values, DioceseSource, dioceses[j..], slugs);
        values := values + [Entry(DioceseKind, Get(d, "dioceseName"), Get(d, "dioceseSlug"), None)];
        slugs := slugs + {Get(d, "dioceseSlug")};
      } else {
        SynthSkip(DioceseSource, dioceses[j..], slugs);
      }
      j := j + 1;
    }
    assert dioceses[j..] == [];
  }

  /** One insertion of the loop: the accumulated values with the new one
      appended still continue into the same final sequence. */
  lemma SynthStep(acc: seq<Entry>, src: Source, rows: seq<Row>, seen: set<Option<string>>)
    requires rows != [] && Offers(src, rows[0]) && Make(src, rows[0]).slug !in seen
    ensures acc + Synth(src, rows, seen)
            == (acc + [Make(src, rows[0])]) + Synth(src, rows[1..], seen + {Make(src, rows[0]).slug})
  {
    var e := Make(src, rows[0]);
    var rest := Synth(src, rows[1..], seen + {e.slug});
    assert Synth(src, rows, seen) == [e] + rest;
    assert acc + ([e] + rest) == (acc + [e]) + rest;
  }

  /** None of the entries reuses a slug from `seen`. */
  predicate FreshSlugs(r: seq<Entry>, seen: set<Option<string>>) {
    forall i :: 0 <= i < |r| ==> r[i].slug !in seen
  }

  /** No two entries share a slug. */
  predicate DistinctSlugs(r: seq<Entry>) {
    forall i, j :: 0 <= i < j < |r| ==> r[i].slug != r[j].slug
  }

  /** Every synthesised slug is new: none was taken before, and no two
      entries share one. */
  lemma {:induction false} SynthDistinct(src: Source, rows: seq<Row>, seen: set<Option<string>>)
    ensures FreshSlugs(Synth(src, rows, seen), seen)
    ensures DistinctSlugs(Synth(src, rows, seen))
  {
    if rows != [] {
      var e := Make(src, rows[0]);
      var r := Synth(src, rows, seen);
      if Offers(src, rows[0]) && e.slug !in seen {
        var rest := Synth(src, rows[1..], seen + {e.slug});
        SynthDistinct(src, rows[1..], seen + {e.slug});
        assert r == [e] + rest;
        forall i | 0 <= i < |r|
          ensures r[i].slug !in seen
        {
          if i > 0 {
            assert r[i] == rest[i - 1];
            assert rest[i - 1].slug !in seen + {e.slug};
          }
        }
        forall i, j | 0 <= i < j < |r|
          ensures r[i].slug != r[j].slug
        {
          assert r[j] == rest[j - 1];
          assert rest[j - 1].slug !in seen + {e.slug};
          if i > 0 {
            assert r[i] == rest[i - 1];
          }
        }
      } else {
        SynthDistinct(src, rows[1..], seen);
        assert r == Synth(src, rows[1..], seen);
      }
    }
  }

  /** A record that adds nothing leaves the rest of the loop as it was. */
  lemma SynthSkip(src: Source, rows: seq<Row>, seen: set<Option<string>>)
    requires rows != [] && !(Offers(src, rows[0]) && Make(src, rows[0]).slug !in seen)
    ensures Synth(src, rows, seen) == Synth(src, rows[1..], seen)
  {
  }

  /** First seen wins: the entry at `k` is the one made from the first
      record that offers its slug, so later records with that slug change
      nothing. */
  lemma {:induction false} SynthFirstWins(src: Source, rows: seq<Row>, seen: set<Option<string>>, k: nat)
    requires k < |Synth(src, rows, seen)|
    ensures var e := Synth(src, rows, seen)[k];
            exists i :: 0 <= i < |rows| && Offers(src, rows[i]) && e == Make(src, rows[i])
              && forall j :: 0 <= j < i && Offers(src, rows[j]) ==> Make(src, rows[j]).slug != e.slug
  {
    var r := Synth(src, rows, seen);
    var e0 := Make(src, rows[0]);
    SynthDistinct(src, rows, seen);
    if Offers(src, rows[0]) && e0.slug !in seen {
      var rest := Synth(src, rows[1..], seen + {e0.slug});
      assert r == [e0] + rest;
      if k == 0 {
        assert Offers(src, rows[0]) && r[0] == Make(src, rows[0]);
      } else {
        SynthFirstWins(src, rows[1..], seen + {e0.slug}, k - 1);
        SynthDistinct(src, rows[1..], seen + {e0.slug});
        assert r[k] == rest[k - 1];
        var i :| 0 <= i < |rows[1..]| && Offers(src, rows[1..][i]) && rest[k - 1] == Make(src, rows[1..][i])
                 && forall j :: 0 <= j < i && Offers(src, rows[1..][j]) ==> Make(src, rows[1..][j]).slug != rest[k - 1].slug;
        forall j | 0 <= j < i + 1 && Offers(src, rows[j])
          ensures Make(src, rows[j]).slug != r[k].slug
        {
          if j > 0 {
            assert rows[j] == rows[1..][j - 1];
          }
        }
        assert rows[i + 1] == rows[1..][i];
      }
    } else {
      var rest := Synth(src, rows[1..], seen);
      assert r == rest;
      SynthFirstWins(src, rows[1..], seen, k);
      var i :| 0 <= i < |rows[1..]| && Offers(src, rows[1..][i]) && rest[k] == Make(src, rows[1..][i])
               && forall j :: 0 <= j < i && Offers(src, rows[1..][j]) ==> Make(src, rows[1..][j]).slug != rest[k].slug;
      forall j | 0 <= j < i + 1 && Offers(src, rows[j])
        ensures Make(src, rows[j]).slug != r[k].slug
      {
        if j > 0 {
          assert rows[j] == rows[1..][j - 1];
        }
      }
      assert rows[i + 1] == rows[1..][i];
    }
  }

  /** A slug offered by some record and not already taken has an entry. */
  lemma {:induction false} SynthComplete(src: Source, rows: seq<Row>, seen: set<Option<string>>, i: nat)
    requires i < |rows| && Offers(src, rows[i]) && Make(src, rows[i]).slug !in seen
    ensures exists e :: e in Synth(src, rows, seen) && e.slug == Make(src, rows[i]).slug
  {
    var e0 := Make(src, rows[0]);
    var s := Make(src, rows[i]).slug;
    if Offers(src, rows[0]) && e0.slug !in seen {
      var rest := Synth(src, rows[1..], seen + {e0.slug});
      assert Synth(src, rows, seen) == [e0] + rest;
      if i == 0 || s == e0.slug {
        assert e0 in Synth(src, rows, seen);
      } else {
        assert rows[1..][i - 1] == rows[i];
        SynthComplete(src, rows[1..], seen + {e0.slug}, i - 1);
        var e :| e in rest && e.slug == s;
        assert e in Synth(src, rows, seen);
      }
    } else {
      assert rows[1..][i - 1] == rows[i];
      SynthComplete(src, rows[1..], seen, i - 1);
    }
  }

  /** The entries come in the order of the records that made them. */
  lemma {:induction false} SynthOrder(src: Source, rows: seq<Row>, seen: set<Option<string>>)
    ensures IsSubsequence(Synth(src, rows, seen), MakeAll(src, rows))
  {
    if rows != [] {
      var e := Make(src, rows[0]);
      var all := MakeAll(src, rows);
      assert all[1..] == MakeAll(src, rows[1..]);
      if Offers(src, rows[0]) && e.slug !in seen {
        SynthOrder(src, rows[1..], seen + {e.slug});
        var r := Synth(src, rows, seen);
        assert r[0] == all[0] && r[1..] == Synth(src, rows[1..], seen + {e.slug});
      } else {
        SynthOrder(src, rows[1..], seen);
        SubsequenceDrop(Synth(src, rows[1..], seen), all);
      }
    }
  }

  lemma SubsequenceDrop<T>(a: seq<T>, b: seq<T>)
    requires b != [] && IsSubsequence(a, b[1..])
    ensures IsSubsequence(a, b)
  {
  }

  /** The records of the first entry: with no slug taken yet, the first
      record that offers one always adds it. */
  lemma SynthFirst(src: Source, rows: seq<Row>)
    requires rows != [] && Offers(src, rows[0])
    ensures Synth(src, rows, {}) != [] && Synth(src, rows, {})[0] == Make(src, rows[0])
  {
  }

  /** `parishes.length` and `dioceses.length` both zero is the only way to
      an empty index; otherwise every parish has its own entry, in order,
      at the front. */
  lemma SearchIndexParishes(parishes: seq<Row>, dioceses: seq<Row>)
    ensures var r := SearchIndex(parishes, dioceses);
            (r == [] <==> parishes == [] && dioceses == [])
            && |r| >= |parishes|
            && forall i :: 0 <= i < |parishes| ==> r[i] == ParishEntry(parishes[i])
  {
    if dioceses != [] {
      SynthFirst(DioceseSource, dioceses);
    }
  }

  /** The kinds never go back: all parishes, then families, then deaneries,
      then dioceses. */
  lemma SearchIndexOrdered(parishes: seq<Row>, dioceses: seq<Row>)
    ensures var r := SearchIndex(parishes, dioceses);
            forall i, j :: 0 <= i < j < |r| ==> Rank(r[i].kind) <= Rank(r[j].kind)
  {
    if parishes != [] || dioceses != [] {
      RankFour(ParishEntries(parishes), Synth(FamilySource, parishes, {}),
               Synth(DeanerySource, parishes, {}), Synth(DioceseSource, dioceses, {}));
    }
  }

  /** Four groups of one kind each, concatenated in rank order, never go
      back in rank. */
  lemma RankFour(a: seq<Entry>, f: seq<Entry>, d: seq<Entry>, o: seq<Entry>)
    requires forall e :: e in a ==> e.kind == ParishKind
    requires forall e :: e in f ==> e.kind == FamilyKind
    requires forall e :: e in d ==> e.kind == DeaneryKind
    requires forall e :: e in o ==> e.kind == DioceseKind
    ensures var r := a + f + d + o;
            forall i, j :: 0 <= i < j < |r| ==> Rank(r[i].kind) <= Rank(r[j].kind)
  {
    var r := a + f + d + o;
    forall i | 0 <= i < |r|
      ensures Rank(r[i].kind) == if i < |a| then 0 else if i < |a| + |f| then 1
                                 else if i < |a| + |f| + |d| then 2 else 3
    {
      if i < |a| {
        assert r[i] == a[i];
      } else if i < |a| + |f| {
        assert r[i] == f[i - |a|];
      } else if i < |a| + |f| + |d| {
        assert r[i] == d[i - |a| - |f|];
      } else {
        assert r[i] == o[i - |a| - |f| - |d|];
      }
    }
  }

  /** `raw.filter((r) => r.type === ...)`: the entries of one kind, in
      order. */
  function OfKind(xs: seq<Entry>, k: Kind): (r: seq<Entry>)
    ensures forall e :: e in r <==> e in xs && e.kind == k
    ensures IsSubsequence(r, xs)
  {
    if xs == [] then []
    else if xs[0].kind == k then [xs[0]] + OfKind(xs[1..], k)
    else OfKind(xs[1..], k)
  }

  lemma {:induction false} OfKindConcat(a: seq<Entry>, b: seq<Entry>, k: Kind)
    ensures OfKind(a + b, k) == OfKind(a, k) + OfKind(b, k)
  {
    if a != [] {
      assert (a + b)[1..] == a[1..] + b;
      OfKindConcat(a[1..], b, k);
    } else {
      assert a + b == b;
    }
  }

  /** The group the index holds for kind `k`. */
  function Group(parishes: seq<Row>, dioceses: seq<Row>, k: Kind): seq<Entry> {
    match k
    case ParishKind => ParishEntries(parishes)
    case FamilyKind => Synth(FamilySource, parishes, {})
    case DeaneryKind => Synth(DeanerySource, parishes, {})
    case DioceseKind => Synth(DioceseSource, dioceses, {})
  }

  lemma {:induction false} OfKindOnly(xs: seq<Entry>, j: Kind, k: Kind)
    requires forall e :: e in xs ==> e.kind == j
    ensures OfKind(xs, k) == if j == k then xs else []
  {
    if xs != [] {
      OfKindOnly(xs[1..], j, k);
    }
  }

  /** Filtering the index by a type gives back exactly the group that was
      built for it. */
  lemma SearchIndexGroups(parishes: seq<Row>, dioceses: seq<Row>, k: Kind)
    ensures OfKind(SearchIndex(parishes, dioceses), k) == Group(parishes, dioceses, k)
  {
    if parishes != [] || dioceses != [] {
      var a := ParishEntries(parishes);
      var f := Synth(FamilySource, parishes, {});
      var d := Synth(DeanerySource, parishes, {});
      var o := Synth(DioceseSource, dioceses, {});
      OfKindFour(a, f, d, o, k);
    }
  }

  /** Four groups of one kind each, concatenated, filter back into the
      group of the kind asked for. */
  lemma OfKindFour(a: seq<Entry>, f: seq<Entry>, d: seq<Entry>, o: seq<Entry>, k: Kind)
    requires forall e :: e in a ==> e.kind == ParishKind
    requires forall e :: e in f ==> e.kind == FamilyKind
    requires forall e :: e in d ==> e.kind == DeaneryKind
    requires forall e :: e in o ==> e.kind == DioceseKind
    ensures OfKind(a + f + d + o, k)
            == match k
               case ParishKind => a
               case FamilyKind => f
               case DeaneryKind => d
               case DioceseKind => o
  {
    OfKindConcat(a + f + d, o, k);
    OfKindConcat(a + f, d, k);
    OfKindConcat(a, f, k);
    OfKindOnly(a, ParishKind, k);
    OfKindOnly(f, FamilyKind, k);
    OfKindOnly(d, DeaneryKind, k);
    OfKindOnly(o, DioceseKind, k);
  }

  /** The four result buckets. */
  datatype Results = Results(parishes: seq<Entry>, families: seq<Entry>,
                             deaneries: seq<Entry>, dioceses: seq<Entry>)

  function Bucket(res: Results, k: Kind): seq<Entry> {
    match k
    case ParishKind => res.parishes
    case FamilyKind => res.families
    case DeaneryKind => res.deaneries
    case DioceseKind => res.dioceses
  }

  /** `performSearch`: with no index (so no Fuse instance) or an empty query
      every bucket is empty; otherwise the ranked entries, which `rank`
      stands for, are split by type. */
  function PerformSearch(index: seq<Entry>, text: string,
                         rank: (seq<Entry>, string) -> seq<Entry>): (res: Results)
    ensures index == [] || text == [] ==> forall k :: Bucket(res, k) == []
    ensures index != [] && text != [] ==>
              forall k :: Bucket(res, k) == OfKind(rank(index, text), k)
  {
    if index == [] || text == [] then Results([], [], [], [])
    else
      var raw := rank(index, text);
      Results(OfKind(raw, ParishKind), OfKind(raw, FamilyKind),
              OfKind(raw, DeaneryKind), OfKind(raw, DioceseKind))
  }

  /** The buckets partition the ranked entries: their sizes add up to the
      number of results. */
  lemma {:induction false} OfKindPartition(xs: seq<Entry>)
    ensures |OfKind(xs, ParishKind)| + |OfKind(xs, FamilyKind)|
            + |OfKind(xs, DeaneryKind)| + |OfKind(xs, DioceseKind)| == |xs|
  {
    if xs != [] {
      OfKindPartition(xs[1..]);
    }
  }

  /** Each ranked entry lands in exactly the bucket of its own type. */
  lemma PerformSearchPartition(index: seq<Entry>, text: string,
                               rank: (seq<Entry>, string) -> seq<Entry>)
    requires index != [] && text != []
    ensures var res := PerformSearch(index, text, rank);
            var raw := rank(index, text);
            (forall e, k :: e in Bucket(res, k) <==> e in raw && e.kind == k)
            && |res.parishes| + |res.families| + |res.deaneries| + |res.dioceses| == |raw|
  {
    OfKindPartition(rank(index, text));
  }

  /** The nested ternary that turns a bucket key into a route segment. */
  function Singular(bucket: string): (r: string)
    ensures forall k :: bucket == BucketName(k) ==> r == TypeName(k)
    ensures bucket !in {"parishes", "families", "deaneries", "dioceses"} ==> r == bucket
  {
    if bucket == "parishes" then "parish"
    else if bucket == "families" then "family"
    else if bucket == "deaneries" then "deanery"
    else if bucket == "dioceses" then "diocese"
    else bucket
  }

  /** A possibly absent value inside a template literal. */
  function Interpolate(v: Option<string>): string {
    if v.Some? then v.value else "undefined"
  }

  /** The link target `/${singular}/${item.slug}`. */
  function Route(bucket: string, item: Entry): string {
    "/" + Singular(bucket) + "/" + Interpolate(item.slug)
  }

  /** The link text: `${name}, ${city}` for a parish, the bare name (nothing
      when absent) otherwise. */
  function Label(item: Entry): (r: string)
    ensures item.kind == ParishKind ==>
              r == Interpolate(item.name) + ", " + Interpolate(item.city)
    ensures item.kind != ParishKind ==> r == if item.name.Some? then item.name.value else ""
  {
    if item.kind == ParishKind then Interpolate(item.name) + ", " + Interpolate(item.city)
    else if item.name.Some? then item.name.value else ""
  }

  /** The links drawn for the buckets, in the order of the results object. */
  function Links(res: Results): seq<string> {
    RoutesIn("parishes", res.parishes) + RoutesIn("families", res.families)
    + RoutesIn("deaneries", res.deaneries) + RoutesIn("dioceses", res.dioceses)
  }

  function RoutesIn(bucket: string, items: seq<Entry>): (r: seq<string>)
    ensures |r| == |items|
    ensures forall i :: 0 <= i < |items| ==> r[i] == Route(bucket, items[i])
  {
    seq(|items|, i requires 0 <= i < |items| => Route(bucket, items[i]))
  }

  /** An entry in a bucket links to the route of its own type and slug. */
  lemma RouteMatchesType(index: seq<Entry>, text: string,
                          rank: (seq<Entry>, string) -> seq<Entry>, k: Kind, item: Entry)
    requires item in Bucket(PerformSearch(index, text, rank), k)
    ensures Route(BucketName(k), item) == "/" + TypeName(item.kind) + "/" + Interpolate(item.slug)
  {
  }

  /** Every ranked result gets exactly one link, in bucket order. */
  lemma LinksCount(index: seq<Entry>, text: string, rank: (seq<Entry>, string) -> seq<Entry>)
    ensures var n := |Links(PerformSearch(index, text, rank))|;
            if index == [] || text == [] then n == 0 else n == |rank(index, text)|
  {
    if index != [] && text != [] {
      OfKindPartition(rank(index, text));
    }
  }
}
