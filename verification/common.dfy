/**
 * Shared vocabulary: optional values, the clock, Django's `get()` over a
 * table held as a sequence of rows in primary-key order, and how PostgreSQL
 * stores a value in a character column of bounded width.
 */
module Common {

  datatype Option<+T> = None | Some(value: T) {
    function GetOr(default: T): T {
      match this
      case Some(v) => v
      case None => default
    }
  }

  /** Python truthiness of an optional string: present and non-empty. */
  predicate Truthy(s: Option<string>) {
    s.Some? && s.value != ""
  }

  /** Instants are whole seconds on one UTC clock. */
  type Instant = int

  const Minute: int := 60
  const Hour: int := 60 * Minute

  /** What `Model.objects.get(...)` finds: no row, exactly one, or several. */
  datatype Fetch = NotFound | Found(index: nat) | MultipleFound

  /** The indices of the rows satisfying `p`, in increasing order. */
  function Matches<T>(rows: seq<T>, p: T -> bool): (r: seq<nat>)
    ensures forall k :: 0 <= k < |r| ==> r[k] < |rows| && p(rows[r[k]])
    ensures forall i :: 0 <= i < |rows| && p(rows[i]) ==> i in r
    ensures forall k, l :: 0 <= k < l < |r| ==> r[k] < r[l]
  {
    if rows == [] then []
    else
      var n := |rows| - 1;
      Matches(rows[..n], p) + (if p(rows[n]) then [n] else [])
  }

  /** Django's `get()`: the unique row satisfying `p`, if there is exactly one. */
  function Get<T>(rows: seq<T>, p: T -> bool): (r: Fetch)
    ensures r == NotFound <==> forall i :: 0 <= i < |rows| ==> !p(rows[i])
    ensures r.Found? ==> r.index < |rows| && p(rows[r.index])
    ensures r.Found? ==> forall i :: 0 <= i < |rows| && p(rows[i]) ==> i == r.index
    ensures r == MultipleFound <==>
      exists i, j :: 0 <= i < j < |rows| && p(rows[i]) && p(rows[j])
  {
    var m := Matches(rows, p);
    if |m| == 0 then NotFound
    else if |m| == 1 then Found(m[0])
    else
      assert p(rows[m[0]]) && p(rows[m[1]]);
      MultipleFound
  }

  /** At most one row satisfies `p`. */
  predicate AtMostOne<T>(rows: seq<T>, p: T -> bool) {
    forall i, j :: 0 <= i < |rows| && 0 <= j < |rows| && p(rows[i]) && p(rows[j]) ==> i == j
  }

  lemma GetUnique<T>(rows: seq<T>, p: T -> bool)
    requires AtMostOne(rows, p)
    ensures Get(rows, p) != MultipleFound
  {
  }

  /** Two tables whose rows the predicate treats alike, position by
      position, give the same `get()` answer. */
  lemma GetAgrees<T>(rows: seq<T>, rows': seq<T>, p: T -> bool)
    requires |rows| == |rows'|
    requires forall j :: 0 <= j < |rows| ==> p(rows'[j]) == p(rows[j])
    ensures Get(rows', p) == Get(rows, p)
  {
    var g, g' := Get(rows, p), Get(rows', p);
    if g.Found? {
      assert p(rows'[g.index]);
    }
    if g'.Found? {
      assert p(rows[g'.index]);
    }
    if g == MultipleFound {
      var x, y :| 0 <= x < y < |rows| && p(rows[x]) && p(rows[y]);
      assert p(rows'[x]) && p(rows'[y]);
    }
    if g' == MultipleFound {
      var x, y :| 0 <= x < y < |rows'| && p(rows'[x]) && p(rows'[y]);
      assert p(rows[x]) && p(rows[y]);
    }
  }

  // ---------------------------------------------------------------------------
  // PostgreSQL character columns
  // ---------------------------------------------------------------------------

  /** PostgreSQL's `varchar(w)` accepts a value longer than `w` only when
      every character past the width is a space; any other overlong value is
      a data error. */
  predicate FitsWidth(v: string, w: nat) {
    |v| <= w || forall i :: w <= i < |v| ==> v[i] == ' '
  }

  /** The value a `varchar(w)` column holds: the value cut to the width. */
  function StoredAs(v: string, w: nat): (r: string)
    ensures |r| <= w && r <= v
    ensures |r| == |v| || |r| == w
  {
    if |v| <= w then v else v[..w]
  }

  /** What an accepted value loses on the way into the column is padding. */
  lemma StoredDropsPadding(v: string, w: nat)
    requires FitsWidth(v, w)
    ensures v == StoredAs(v, w) + seq(|v| - |StoredAs(v, w)|, _ => ' ')
  {
    var r := StoredAs(v, w);
    var pad := seq(|v| - |r|, _ => ' ');
    assert forall i :: 0 <= i < |v| ==> v[i] == (r + pad)[i];
  }

  /** The value does not end in a space. */
  predicate Unpadded(v: string) {
    v == [] || v[|v| - 1] != ' '
  }

  /** A value that does not end in a space fits exactly when it is no longer
      than the column, and is then stored unchanged. */
  lemma UnpaddedFits(v: string, w: nat)
    requires Unpadded(v)
    ensures FitsWidth(v, w) <==> |v| <= w
    ensures FitsWidth(v, w) ==> StoredAs(v, w) == v
  {
    if |v| > w {
      assert v[|v| - 1] != ' ';
    }
  }
}
