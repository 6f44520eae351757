/** The nullable values of the dashboard (a JavaScript `null` or `undefined`
    is `None`), query answers, and the `map` and `filter(Boolean)` the scripts apply to the
    rows of a sheet. */
module Wrappers {

  datatype Option<+T> = None | Some(value: T) {

    /** Returns the value in Some, or `default` for None (JavaScript's `??`). */
    function GetOr(default: T): T {
      match this
      case Some(v) => v
      case None => default
    }
  }

  /** What a database query gives back: an error, or `data` (possibly
      `null`). */
  datatype Query<T> = Failed(message: string) | Rows(data: Option<seq<T>>)

  // ---------------------------------------------------------------------
  // Rows of a parsed sheet

  /** A row of a sheet parsed with headers, by column header. */
  type CsvRow = map<string, string>

  /** `row.KEY`: undefined when the column is absent. */
  function Cell(row: CsvRow, key: string): (c: Option<string>)
    ensures c.Some? <==> key in row
    ensures c.Some? ==> c.value == row[key]
  {
    if key in row then Some(row[key]) else None
  }

  /** `value || null` on a text, and `toInterval` of the laps upload: the
      empty text becomes null and any other text is kept. */
  function OrNull(value: Option<string>): (r: Option<string>)
    ensures r.None? <==> value.None? || value.value == ""
    ensures r.Some? ==> r == value && r.value != ""
  {
    if value.Some? && value.value == "" then None else value
  }

  // ---------------------------------------------------------------------
  // Mapping and filtering sequences

  /** `xs.map(f)`. */
  function MapAll<A, B>(f: A -> B, xs: seq<A>): (ys: seq<B>)
    ensures |ys| == |xs| && forall k :: 0 <= k < |xs| ==> ys[k] == f(xs[k])
  {
    seq(|xs|, k requires 0 <= k < |xs| => f(xs[k]))
  }

  /** `.filter(Boolean)`: the values that are not null, in order. */
  function Present<T>(xs: seq<Option<T>>): seq<T> {
    if xs == [] then []
    else if xs[0].Some? then [xs[0].value] + Present(xs[1..])
    else Present(xs[1..])
  }

  /** Mapping two parts maps each part. */
  lemma MapAllAppend<A, B>(f: A -> B, a: seq<A>, b: seq<A>)
    ensures MapAll(f, a + b) == MapAll(f, a) + MapAll(f, b)
  {
    assert forall k :: 0 <= k < |a + b| ==> MapAll(f, a + b)[k] == (MapAll(f, a) + MapAll(f, b))[k];
  }

  /** Filtering two parts filters each part. */
  lemma {:induction false} PresentAppend<T>(a: seq<Option<T>>, b: seq<Option<T>>)
    ensures Present(a + b) == Present(a) + Present(b)
  {
    if a == [] {
      assert a + b == b;
    } else {
      assert (a + b)[1..] == a[1..] + b;
      assert (a + b)[0] == a[0];
      PresentAppend(a[1..], b);
    }
  }

  /** Filtering keeps at most every value, and keeps every value exactly when
      none is null; what it keeps are the values present. */
  lemma {:induction false} PresentCount<T>(xs: seq<Option<T>>)
    ensures |Present(xs)| <= |xs|
    ensures |Present(xs)| == |xs| <==> forall k :: 0 <= k < |xs| ==> xs[k].Some?
    ensures forall r :: r in Present(xs) ==> Some(r) in xs
  {
    if xs != [] {
      PresentCount(xs[1..]);
      assert forall k :: 1 <= k < |xs| ==> xs[k] == xs[1..][k - 1];
    }
  }

  /** Each kept value is the image of some input, and every input yields
      one exactly when none maps to null. */
  lemma PresentMapAll<A, B>(f: A -> Option<B>, xs: seq<A>)
    ensures |Present(MapAll(f, xs))| <= |xs|
    ensures |Present(MapAll(f, xs))| == |xs| <==> forall k :: 0 <= k < |xs| ==> f(xs[k]).Some?
    ensures forall r :: r in Present(MapAll(f, xs)) ==> exists k :: 0 <= k < |xs| && f(xs[k]) == Some(r)
  {
    var m := MapAll(f, xs);
    PresentCount(m);
    forall r | r in Present(m)
      ensures exists k :: 0 <= k < |xs| && f(xs[k]) == Some(r)
    {
      var k :| 0 <= k < |m| && m[k] == Some(r);
    }
  }
}
