/** The shapes the JSON records take once loaded: optional values, fields
    that hold either a delimited string or an already split array, records
    read as string fields, and `Array.prototype.find`. */
module Values {

  datatype Option<+T> = None | Some(value: T)

  /** A field that the normalisers accept: absent (`undefined` or `null`), a
      string, or an array of elements. */
  datatype Raw<+E> = Missing | Str(s: string) | Arr(items: seq<E>)

  /** JavaScript truthiness of such a field: an absent field and the empty
      string are falsy, every array (even an empty one) is truthy. */
  predicate Truthy<E>(v: Raw<E>) {
    !(v.Missing? || (v.Str? && v.s == []))
  }

  /** `vs[0] || vs[1] || ... || ""`: the first truthy field, else `""`. */
  function FirstTruthy<E>(vs: seq<Raw<E>>): (r: Raw<E>)
    ensures Truthy(r) ==> exists k :: (0 <= k < |vs| && r == vs[k]
                           && forall j :: 0 <= j < k ==> !Truthy(vs[j]))
    ensures !Truthy(r) ==> r == Str("") && forall k :: 0 <= k < |vs| ==> !Truthy(vs[k])
  {
    if vs == [] then Str("")
    else if Truthy(vs[0]) then vs[0]
    else
      var r := FirstTruthy(vs[1..]);
      assert Truthy(r) ==> exists k :: (1 <= k < |vs| && r == vs[k]
                           && forall j :: 0 <= j < k ==> !Truthy(vs[j]));
      r
  }

  /** The first truthy entry is the one `||` returns. */
  lemma FirstTruthyAt<E>(vs: seq<Raw<E>>, k: nat)
    requires k < |vs| && Truthy(vs[k]) && forall j :: 0 <= j < k ==> !Truthy(vs[j])
    ensures FirstTruthy(vs) == vs[k]
  {
    var r := FirstTruthy(vs);
    assert Truthy(r);
    var i :| 0 <= i < |vs| && r == vs[i] && forall j :: 0 <= j < i ==> !Truthy(vs[j]);
    assert !(i < k) && !(k < i);
  }

  /** `a || b` on two fields. */
  function Or<E>(a: Raw<E>, b: Raw<E>): Raw<E> {
    if Truthy(a) then a else b
  }

  /** A record of the detail pages and of the search page: the fields it has,
      each read as a string. */
  type Row = map<string, string>

  /** `row[key]`, `undefined` when absent. */
  function Get(row: Row, key: string): Option<string> {
    if key in row then Some(row[key]) else None
  }

  /** `String(row[key] || "")`. */
  function FieldText(row: Row, key: string): string {
    if key in row then row[key] else ""
  }

  /** `row[key]` is truthy. */
  predicate HasText(row: Row, key: string) {
    key in row && row[key] != ""
  }

  /** `String(row[key1] || row[key2] || "")`. */
  function FieldOr(row: Row, key1: string, key2: string): (r: string)
    ensures HasText(row, key1) ==> r == row[key1]
    ensures !HasText(row, key1) ==> r == FieldText(row, key2)
  {
    if HasText(row, key1) then row[key1] else FieldText(row, key2)
  }

  /** `value ?? fallback`. */
  function Coalesce<T>(value: Option<T>, fallback: T): (r: T)
    ensures value.Some? ==> r == value.value
    ensures value.None? ==> r == fallback
  {
    if value.Some? then value.value else fallback
  }

  /** The position of the first element of `xs[from..]` that satisfies `p`. */
  function FindIndexFrom<T>(xs: seq<T>, p: T -> bool, from: nat): (r: Option<nat>)
    requires from <= |xs|
    ensures r.Some? ==> from <= r.value < |xs| && p(xs[r.value])
                        && forall j :: from <= j < r.value ==> !p(xs[j])
    ensures r.None? ==> forall j :: from <= j < |xs| ==> !p(xs[j])
    decreases |xs| - from
  {
    if from == |xs| then None
    else if p(xs[from]) then Some(from)
    else FindIndexFrom(xs, p, from + 1)
  }

  /** `xs.find(p)`: the first element that satisfies `p`, or `undefined`. */
  function Find<T>(xs: seq<T>, p: T -> bool): (r: Option<T>)
    ensures r.Some? ==> exists i :: (0 <= i < |xs| && r.value == xs[i] && p(xs[i])
                        && forall j :: 0 <= j < i ==> !p(xs[j]))
    ensures r.None? ==> forall j :: 0 <= j < |xs| ==> !p(xs[j])
  {
    match FindIndexFrom(xs, p, 0)
    case Some(i) => Some(xs[i])
    case None => None
  }

  /** `find` returns the first element satisfying the predicate. */
  lemma FindFirst<T>(xs: seq<T>, p: T -> bool, i: nat)
    requires i < |xs| && p(xs[i]) && forall j :: 0 <= j < i ==> !p(xs[j])
    ensures Find(xs, p) == Some(xs[i])
  {
    var r := Find(xs, p);
    assert r.Some?;
    var k :| 0 <= k < |xs| && r.value == xs[k] && p(xs[k]) && forall j :: 0 <= j < k ==> !p(xs[j]);
    assert !(k < i) && !(i < k);
  }

  /** `find` returns the first element satisfying the predicate, whichever
      it is. */
  lemma FindFirstAll<T>(xs: seq<T>, p: T -> bool)
    ensures forall i :: 0 <= i < |xs| && p(xs[i]) && (forall j :: 0 <= j < i ==> !p(xs[j])) ==>
              Find(xs, p) == Some(xs[i])
  {
    forall i | 0 <= i < |xs| && p(xs[i]) && (forall j :: 0 <= j < i ==> !p(xs[j]))
      ensures Find(xs, p) == Some(xs[i])
    {
      FindFirst(xs, p, i);
    }
  }

  /** `xs.findIndex(x => x === target)` as an option: the first position
      holding `target`. */
  function IndexOf<T(==)>(xs: seq<T>, target: T): (r: Option<nat>)
    ensures r.Some? ==> r.value < |xs| && xs[r.value] == target
                        && forall j :: 0 <= j < r.value ==> xs[j] != target
    ensures r.None? <==> target !in xs
    ensures r.None? ==> forall j :: 0 <= j < |xs| ==> xs[j] != target
  {
    if xs == [] then None
    else if xs[0] == target then Some(0)
    else match IndexOf(xs[1..], target)
      case Some(i) => Some(i + 1)
      case None => None
  }

  /** An element is found at its own position unless it occurs earlier. */
  lemma IndexOfFirst<T>(xs: seq<T>, i: nat)
    requires i < |xs| && forall j :: 0 <= j < i ==> xs[j] != xs[i]
    ensures IndexOf(xs, xs[i]) == Some(i)
  {
    var r := IndexOf(xs, xs[i]);
    assert r.Some?;
    assert !(r.value < i) && !(i < r.value);
  }

  /** `a` is `b` with some elements left out, the rest in order. */
  predicate IsSubsequence<T(==)>(a: seq<T>, b: seq<T>)
    decreases |b|
  {
    a == [] || (b != [] && ((a[0] == b[0] && IsSubsequence(a[1..], b[1..])) || IsSubsequence(a, b[1..])))
  }
}
