/**
 * Points, faces and the `reshape((-1, 3))` step that turns a flat buffer
 * into rows of three (app.py:19-20).
 */
module Geometry {
  import opened Options

  /** One row of a buffer reshaped to width three. */
  datatype Triple<T> = Triple(first: T, second: T, third: T)

  /** A vertex (x, y, z). Coordinates are copied, never computed on. */
  type Point = Triple<real>

  /** A triangle: exactly three points, in the order the index triple names them. */
  type Face = Triple<Point>

  /** Row `j` of a flat buffer read three values at a time. */
  function RowAt<T>(s: seq<T>, j: nat): Triple<T>
    requires 3 * j + 2 < |s|
  {
    Triple(s[3 * j], s[3 * j + 1], s[3 * j + 2])
  }

  /** Cuts a buffer whose length is a multiple of three into consecutive rows: row `k` is elements `3k .. 3k+2`. */
  function Group<T>(s: seq<T>): seq<Triple<T>>
    requires |s| % 3 == 0
  {
    seq(|s| / 3, k requires 0 <= k < |s| / 3 => RowAt(s, k))
  }

  /** Dropping the first row of the rows is grouping the buffer without its first three elements. */
  lemma GroupTail<T>(s: seq<T>)
    requires |s| % 3 == 0 && |s| > 0
    ensures Group(s) == [Triple(s[0], s[1], s[2])] + Group(s[3..])
  {
    var rows, rest := Group(s), Group(s[3..]);
    assert |rows| == |rest| + 1;
    forall k | 1 <= k < |rows|
      ensures rows[k] == rest[k - 1]
    {
      assert s[3..][3 * (k - 1)] == s[3 * k];
    }
  }

  /** Lays rows back out as a flat buffer; the inverse of `Group`. */
  function Flatten<T>(rows: seq<Triple<T>>): (s: seq<T>)
    ensures |s| == 3 * |rows|
  {
    if |rows| == 0 then []
    else [rows[0].first, rows[0].second, rows[0].third] + Flatten(rows[1..])
  }

  lemma {:induction false} FlattenGroup<T>(s: seq<T>)
    requires |s| % 3 == 0
    ensures Flatten(Group(s)) == s
    decreases |s|
  {
    if |s| > 0 {
      var rows := Group(s);
      var rest := Group(s[3..]);
      GroupTail(s);
      assert rows[0] == Triple(s[0], s[1], s[2]) && rows[1..] == rest;
      assert Flatten(rows) == [s[0], s[1], s[2]] + Flatten(rest);
      FlattenGroup(s[3..]);
      assert s == [s[0], s[1], s[2]] + s[3..];
    }
  }

  lemma {:induction false} GroupFlatten<T>(rows: seq<Triple<T>>)
    ensures Group(Flatten(rows)) == rows
  {
    if |rows| > 0 {
      var s := Flatten(rows);
      var rest := Flatten(rows[1..]);
      assert s == [rows[0].first, rows[0].second, rows[0].third] + rest;
      assert s[0] == rows[0].first && s[1] == rows[0].second && s[2] == rows[0].third;
      assert s[3..] == rest;
      GroupTail(s);
      GroupFlatten(rows[1..]);
      assert rows == [rows[0]] + rows[1..];
    }
  }

  /**
   * numpy's `reshape((-1, 3))`: succeeds exactly when the length is a
   * multiple of three (zero included) and then loses nothing.
   */
  function Reshape3<T>(s: seq<T>): (r: Option<seq<Triple<T>>>)
    ensures r.Some? <==> |s| % 3 == 0
    ensures r.Some? ==> Flatten(r.value) == s && |r.value| == |s| / 3
  {
    if |s| % 3 == 0 then
      FlattenGroup(s);
      Some(Group(s))
    else None
  }
}
