/** Shared vocabulary: optional values, the Python exceptions the pipeline lets
    escape, insertion-ordered dictionaries, and first-minimum / first-maximum
    selection as done by Python's built-in `min` and `max` with a `key`. */
module Common {

  datatype Option<+T> = None | Some(value: T) {
    /** `x or default` for a value that may be missing. */
    function GetOr(default: T): T {
      match this
      case Some(v) => v
      case None => default
    }
  }

  /** The exceptions that the core does not catch and that therefore reach the caller. */
  datatype Error =
    | ParseError         // xml.etree.ElementTree.ParseError on an unparsable response body
    | AttributeError     // `.text` taken of a child element that `find` did not find
    | ValueError         // `max` of an empty sequence, or a failing library fit
    | IndexError         // a coordinate row that is too short
    | KeyError           // a DataFrame column that does not exist

  datatype Result<+T> = Ok(value: T) | Raised(error: Error)

  /** A dense matrix, row by row (also used for the scipy sparse TF-IDF matrix). */
  type Matrix = seq<seq<real>>

  function Max(a: int, b: int): int { if a < b then b else a }
  function Min(a: int, b: int): int { if a < b then a else b }

  /** Last element of `s`, or `default` when `s` is empty. */
  function LastOr<T>(s: seq<T>, default: T): T {
    if s == [] then default else s[|s| - 1]
  }

  /** Dropping the last element of `a + b`, for a non-empty `b`, drops it from `b`. */
  lemma SplitLast<T>(a: seq<T>, b: seq<T>)
    requires b != []
    ensures (a + b)[..|a + b| - 1] == a + b[..|b| - 1]
    ensures (a + b)[|a + b| - 1] == b[|b| - 1]
  {
  }

  // ---------------------------------------------------------------------
  // Insertion-ordered dictionaries (Python's dict) as association lists.
  // ---------------------------------------------------------------------

  type Assoc<V> = seq<(string, V)>

  function Keys<V>(m: Assoc<V>): seq<string> {
    if m == [] then [] else Keys(m[..|m| - 1]) + [m[|m| - 1].0]
  }

  ghost predicate DistinctKeys<V>(m: Assoc<V>) {
    forall i, j :: 0 <= i < j < |m| ==> m[i].0 != m[j].0
  }

  /** Index of key `k` in `m`, if present. */
  function IndexOf<V>(m: Assoc<V>, k: string): (r: Option<nat>)
    ensures r.Some? ==> r.value < |m| && m[r.value].0 == k
    ensures r.None? ==> forall i :: 0 <= i < |m| ==> m[i].0 != k
  {
    if m == [] then None
    else if m[|m| - 1].0 == k then Some(|m| - 1)
    else IndexOf(m[..|m| - 1], k)
  }

  /** `d[k] = v`: an existing key keeps its position and gets the new value;
      a new key goes to the end. */
  function Assign<V>(m: Assoc<V>, k: string, v: V): (r: Assoc<V>)
    ensures IndexOf(m, k).Some? ==> |r| == |m|
    ensures IndexOf(m, k).None? ==> r == m + [(k, v)]
  {
    match IndexOf(m, k)
    case Some(i) => m[i := (k, v)]
    case None => m + [(k, v)]
  }

  lemma AssignKeepsDistinct<V>(m: Assoc<V>, k: string, v: V)
    requires DistinctKeys(m)
    ensures DistinctKeys(Assign(m, k, v))
    ensures exists i :: 0 <= i < |Assign(m, k, v)| && Assign(m, k, v)[i] == (k, v)
    ensures forall i :: 0 <= i < |m| && m[i].0 != k ==> Assign(m, k, v)[i] == m[i]
    ensures forall k' :: k' != k ==> IndexOf(Assign(m, k, v), k') == IndexOf(m, k')
  {
    var r := Assign(m, k, v);
    match IndexOf(m, k)
    case Some(i) =>
      assert r[i] == (k, v);
      forall k' | k' != k ensures IndexOf(r, k') == IndexOf(m, k') {
        IndexOfEquivalent(m, r, k');
      }
    case None =>
      assert r[|m|] == (k, v);
      forall k' | k' != k ensures IndexOf(r, k') == IndexOf(m, k') {
        assert r[..|r| - 1] == m;
      }
  }

  /** `d.get(k)`. */
  function Get<V>(m: Assoc<V>, k: string): (r: Option<V>)
    ensures r.Some? <==> exists i :: 0 <= i < |m| && m[i].0 == k
  {
    match IndexOf(m, k)
    case Some(i) => Some(m[i].1)
    case None => None
  }

  /** Reading back after `d[k] = v`. */
  lemma GetAssign<V>(m: Assoc<V>, k: string, v: V, k': string)
    requires DistinctKeys(m)
    ensures DistinctKeys(Assign(m, k, v))
    ensures Get(Assign(m, k, v), k') == if k' == k then Some(v) else Get(m, k')
  {
    AssignKeepsDistinct(m, k, v);
    var r := Assign(m, k, v);
    if k' == k {
      var i :| 0 <= i < |r| && r[i] == (k, v);
      var j := IndexOf(r, k).value;
      assert r[i].0 == r[j].0;
    }
  }

  /** Two association lists with the same keys position by position, where the
      positions that hold `k` agree, give the same index for `k`. */
  lemma IndexOfEquivalent<V>(m: Assoc<V>, r: Assoc<V>, k: string)
    requires |m| == |r|
    requires forall i :: 0 <= i < |m| ==> m[i].0 == r[i].0
    ensures IndexOf(m, k) == IndexOf(r, k)
  {
    if m != [] {
      IndexOfEquivalent(m[..|m| - 1], r[..|r| - 1], k);
    }
  }

  // ---------------------------------------------------------------------
  // Built-in min / max with a key: the FIRST minimal / maximal element wins.
  // ---------------------------------------------------------------------

  ghost predicate IsFirstMin(xs: seq<real>, i: int) {
    && 0 <= i < |xs|
    && (forall j :: 0 <= j < |xs| ==> xs[i] <= xs[j])
    && (forall j :: 0 <= j < i ==> xs[i] < xs[j])
  }

  ghost predicate IsFirstMax(xs: seq<real>, i: int) {
    && 0 <= i < |xs|
    && (forall j :: 0 <= j < |xs| ==> xs[j] <= xs[i])
    && (forall j :: 0 <= j < i ==> xs[j] < xs[i])
  }

  /** `min(range(len(xs)), key=xs.__getitem__)`: scans left to right and
      replaces the candidate only on a strictly smaller key. */
  function FirstMinIndex(xs: seq<real>): (i: nat)
    requires |xs| > 0
    ensures IsFirstMin(xs, i)
  {
    if |xs| == 1 then 0
    else
      var i := FirstMinIndex(xs[..|xs| - 1]);
      assert forall j :: 0 <= j < |xs| - 1 ==> xs[..|xs| - 1][j] == xs[j];
      if xs[|xs| - 1] < xs[i] then |xs| - 1 else i
  }

  /** `max(range(len(xs)), key=xs.__getitem__)`: replaces the candidate only on
      a strictly larger key, so the first of equal maxima is kept. */
  function FirstMaxIndex(xs: seq<real>): (i: nat)
    requires |xs| > 0
    ensures IsFirstMax(xs, i)
  {
    if |xs| == 1 then 0
    else
      var i := FirstMaxIndex(xs[..|xs| - 1]);
      assert forall j :: 0 <= j < |xs| - 1 ==> xs[..|xs| - 1][j] == xs[j];
      if xs[|xs| - 1] > xs[i] then |xs| - 1 else i
  }
}
