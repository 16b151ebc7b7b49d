/** The manga reader's detected texts and the axis-aligned box of a polygon
    (`getPosition`). Coordinates are integers (pixel positions). */
module MangaDomain {
  import opened Ocr

  /** One text detected on a page: its language, its text and its polygon. */
  datatype VisionText = VisionText(locale: string, description: string, vertices: seq<Vertex>)

  /** The detected texts of the current page and the indices the reader
      selected, in the order they were first selected (a `Map` from index to
      `true` keeps insertion order and holds each key once). */
  datatype Tokens = Tokens(selectedIndices: seq<int>, list: seq<VisionText>)

  datatype Position = Position(top: int, bottom: int, left: int, right: int, height: int, width: int)

  function Ys(vs: seq<Vertex>): (r: seq<int>)
    ensures |r| == |vs| && forall k :: 0 <= k < |vs| ==> r[k] == vs[k].y
  {
    seq(|vs|, k requires 0 <= k < |vs| => vs[k].y)
  }

  function Xs(vs: seq<Vertex>): (r: seq<int>)
    ensures |r| == |vs| && forall k :: 0 <= k < |vs| ==> r[k] == vs[k].x
  {
    seq(|vs|, k requires 0 <= k < |vs| => vs[k].x)
  }

  /** `Math.min(...s)` for a non-empty list. */
  function Min(s: seq<int>): (r: int)
    requires s != []
    ensures r in s && forall k :: 0 <= k < |s| ==> r <= s[k]
  {
    if |s| == 1 then s[0]
    else
      var m := Min(s[..|s| - 1]);
      if s[|s| - 1] < m then s[|s| - 1] else m
  }

  /** `Math.max(...s)` for a non-empty list. */
  function Max(s: seq<int>): (r: int)
    requires s != []
    ensures r in s && forall k :: 0 <= k < |s| ==> s[k] <= r
  {
    if |s| == 1 then s[0]
    else
      var m := Max(s[..|s| - 1]);
      if s[|s| - 1] > m then s[|s| - 1] else m
  }

  /** `getPosition`: the smallest box around the vertices, with its height
      and width. */
  function GetPosition(vs: seq<Vertex>): (p: Position)
    requires vs != []
    ensures forall k :: 0 <= k < |vs| ==> p.left <= vs[k].x <= p.right && p.top <= vs[k].y <= p.bottom
    ensures p.height == p.bottom - p.top >= 0 && p.width == p.right - p.left >= 0
  {
    var top := Min(Ys(vs));
    var bottom := Max(Ys(vs));
    var left := Min(Xs(vs));
    var right := Max(Xs(vs));
    Position(top, bottom, left, right, bottom - top, right - left)
  }

  /** The box is the smallest one: each of its sides touches a vertex. */
  lemma GetPositionIsTight(vs: seq<Vertex>)
    requires vs != []
    ensures var p := GetPosition(vs);
      (exists k :: 0 <= k < |vs| && vs[k].x == p.left) &&
      (exists k :: 0 <= k < |vs| && vs[k].x == p.right) &&
      (exists k :: 0 <= k < |vs| && vs[k].y == p.top) &&
      (exists k :: 0 <= k < |vs| && vs[k].y == p.bottom)
  {
    var p := GetPosition(vs);
    assert p.left in Xs(vs) && p.right in Xs(vs) && p.top in Ys(vs) && p.bottom in Ys(vs);
  }

  /** The least value of a list is determined by the set of its values. */
  lemma MinBySet(a: seq<int>, b: seq<int>)
    requires a != [] && b != [] && forall x :: x in a <==> x in b
    ensures Min(a) == Min(b)
  {
    var ma, mb := Min(a), Min(b);
    assert ma in b && mb in a;
  }

  lemma MaxBySet(a: seq<int>, b: seq<int>)
    requires a != [] && b != [] && forall x :: x in a <==> x in b
    ensures Max(a) == Max(b)
  {
    var ma, mb := Max(a), Max(b);
    assert ma in b && mb in a;
  }

  lemma SameValues(a: seq<Vertex>, b: seq<Vertex>)
    requires multiset(a) == multiset(b)
    ensures forall x :: x in Xs(a) <==> x in Xs(b)
    ensures forall y :: y in Ys(a) <==> y in Ys(b)
  {
    forall x | x in Xs(a)
      ensures x in Xs(b)
    {
      var k :| 0 <= k < |a| && Xs(a)[k] == x;
      assert a[k] in multiset(b);
      var j :| 0 <= j < |b| && b[j] == a[k];
      assert Xs(b)[j] == x;
    }
    forall x | x in Xs(b)
      ensures x in Xs(a)
    {
      var k :| 0 <= k < |b| && Xs(b)[k] == x;
      assert b[k] in multiset(a);
      var j :| 0 <= j < |a| && a[j] == b[k];
      assert Xs(a)[j] == x;
    }
    forall y | y in Ys(a)
      ensures y in Ys(b)
    {
      var k :| 0 <= k < |a| && Ys(a)[k] == y;
      assert a[k] in multiset(b);
      var j :| 0 <= j < |b| && b[j] == a[k];
      assert Ys(b)[j] == y;
    }
    forall y | y in Ys(b)
      ensures y in Ys(a)
    {
      var k :| 0 <= k < |b| && Ys(b)[k] == y;
      assert b[k] in multiset(a);
      var j :| 0 <= j < |a| && a[j] == b[k];
      assert Ys(a)[j] == y;
    }
  }

  /** The order in which the vertices are listed does not matter. */
  lemma GetPositionIgnoresOrder(a: seq<Vertex>, b: seq<Vertex>)
    requires a != [] && multiset(a) == multiset(b)
    ensures b != [] && GetPosition(a) == GetPosition(b)
  {
    assert |b| == |multiset(b)| == |multiset(a)| == |a|;
    SameValues(a, b);
    MinBySet(Xs(a), Xs(b));
    MaxBySet(Xs(a), Xs(b));
    MinBySet(Ys(a), Ys(b));
    MaxBySet(Ys(a), Ys(b));
  }
}
