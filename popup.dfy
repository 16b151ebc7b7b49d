/** The manga reader's popup over the selected detected texts: which tokens it
    shows and in what order, the text it offers, where it is anchored and the
    crop area it proposes. */
module Popup {
  import opened Wrappers
  import opened Strings
  import opened MangaDomain

  // ---- JavaScript's default sort on numbers --------------------------------

  /** Code-unit order on strings, as `Array.prototype.sort` compares by
      default. */
  predicate LexLe(a: string, b: string)
    decreases |a|
  {
    a == [] || (b != [] && (a[0] < b[0] || (a[0] == b[0] && LexLe(a[1..], b[1..]))))
  }

  lemma {:induction false} LexTotal(a: string, b: string)
    ensures LexLe(a, b) || LexLe(b, a)
    decreases |a|
  {
    if a != [] && b != [] && a[0] == b[0] {
      LexTotal(a[1..], b[1..]);
    }
  }

  lemma {:induction false} LexTransitive(a: string, b: string, c: string)
    requires LexLe(a, b) && LexLe(b, c)
    ensures LexLe(a, c)
    decreases |a|
  {
    if a != [] && a[0] == b[0] && b[0] == c[0] {
      LexTransitive(a[1..], b[1..], c[1..]);
    }
  }

  lemma {:induction false} LexAntisymmetric(a: string, b: string)
    requires LexLe(a, b) && LexLe(b, a)
    ensures a == b
    decreases |a|
  {
    if a != [] {
      LexAntisymmetric(a[1..], b[1..]);
      assert a == [a[0]] + a[1..] && b == [b[0]] + b[1..];
    }
  }

  /** Numbers are compared by their decimal renderings. */
  predicate KeyLe(a: int, b: int) {
    LexLe(IntToString(a), IntToString(b))
  }

  predicate Sorted(s: seq<int>) {
    forall i, j :: 0 <= i < j < |s| ==> KeyLe(s[i], s[j])
  }

  function InsertKey(x: int, s: seq<int>): (r: seq<int>)
    requires Sorted(s)
    ensures Sorted(r) && multiset(r) == multiset(s) + multiset{x}
  {
    if s == [] then [x]
    else if KeyLe(x, s[0]) then
      InsertFront(x, s);
      [x] + s
    else
      SortedTail(s);
      var rest := InsertKey(x, s[1..]);
      InsertBehind(x, s, rest);
      [s[0]] + rest
  }

  lemma SortedTail(s: seq<int>)
    requires s != [] && Sorted(s)
    ensures Sorted(s[1..])
  {
    var t := s[1..];
    forall i, j | 0 <= i < j < |t|
      ensures KeyLe(t[i], t[j])
    {
      assert t[i] == s[i + 1] && t[j] == s[j + 1];
    }
  }

  /** A key no greater than the first of a sorted list can go in front. */
  lemma InsertFront(x: int, s: seq<int>)
    requires s != [] && Sorted(s) && KeyLe(x, s[0])
    ensures Sorted([x] + s)
  {
    forall j | 0 <= j < |s|
      ensures KeyLe(x, s[j])
    {
      if j > 0 {
        LexTransitive(IntToString(x), IntToString(s[0]), IntToString(s[j]));
      }
    }
    SortedCons(x, s);
  }

  /** A key greater than the first goes into the rest. */
  lemma InsertBehind(x: int, s: seq<int>, rest: seq<int>)
    requires s != [] && Sorted(s) && !KeyLe(x, s[0])
    requires Sorted(rest) && multiset(rest) == multiset(s[1..]) + multiset{x}
    ensures Sorted([s[0]] + rest) && multiset([s[0]] + rest) == multiset(s) + multiset{x}
  {
    LexTotal(IntToString(x), IntToString(s[0]));
    assert s == [s[0]] + s[1..];
    forall j | 0 <= j < |rest|
      ensures KeyLe(s[0], rest[j])
    {
      assert rest[j] in multiset(rest);
      if rest[j] != x {
        assert rest[j] in multiset(s[1..]);
        var i :| 0 <= i < |s[1..]| && s[1..][i] == rest[j];
        assert s[i + 1] == rest[j];
      }
    }
    SortedCons(s[0], rest);
  }

  lemma SortedCons(y: int, s: seq<int>)
    requires Sorted(s) && forall j :: 0 <= j < |s| ==> KeyLe(y, s[j])
    ensures Sorted([y] + s)
  {
    var t := [y] + s;
    forall i, j | 0 <= i < j < |t|
      ensures KeyLe(t[i], t[j])
    {
      assert t[j] == s[j - 1];
      if i == 0 {
        assert t[i] == y && KeyLe(y, s[j - 1]);
      } else {
        assert t[i] == s[i - 1] && KeyLe(s[i - 1], s[j - 1]);
      }
    }
  }

  /** The selected indices in the order `sort()` puts them: by their decimal
      renderings, so 10 comes before 2. */
  function SortKeys(s: seq<int>): (r: seq<int>)
    ensures Sorted(r) && multiset(r) == multiset(s)
    ensures |r| == |s| && forall k :: 0 <= k < |r| ==> r[k] in s
  {
    if s == [] then []
    else
      assert s == [s[0]] + s[1..];
      var r := InsertKey(s[0], SortKeys(s[1..]));
      SortKeysMembers(s, r);
      r
  }

  lemma SortPutsTenBeforeTwo()
    ensures SortKeys([2, 10]) == [10, 2]
  {
    assert IntToString(10) == "10" by {
      assert NatToString(1) == "1";
      assert NatToString(10) == NatToString(1) + [DigitChar(0)];
    }
    assert IntToString(2) == "2";
    assert !KeyLe(2, 10);
    assert SortKeys([10]) == [10];
    assert [2, 10][1..] == [10];
  }

  /** Distinct numbers have distinct renderings, so the order is antisymmetric. */
  lemma KeyAntisymmetric(x: int, y: int)
    requires KeyLe(x, y) && KeyLe(y, x)
    ensures x == y
  {
    LexAntisymmetric(IntToString(x), IntToString(y));
    IntToStringInjective(x, y);
  }

  /** Two key lists sorted in this order with the same elements are equal:
      the sort's result depends only on which keys there are. */
  lemma {:induction false} SortedUnique(a: seq<int>, b: seq<int>)
    requires Sorted(a) && Sorted(b) && multiset(a) == multiset(b)
    ensures a == b
    decreases |a|
  {
    if a != [] {
      assert |b| == |multiset(b)| == |multiset(a)| == |a|;
      var x, y := a[0], b[0];
      SameFirst(a, b);
      assert a == [x] + a[1..] && b == [x] + b[1..];
      assert multiset(a[1..]) == multiset(a) - multiset{x};
      assert multiset(b[1..]) == multiset(b) - multiset{x};
      SortedUnique(a[1..], b[1..]);
    }
  }

  lemma SameFirst(a: seq<int>, b: seq<int>)
    requires a != [] && b != []
    requires Sorted(a) && Sorted(b) && multiset(a) == multiset(b)
    ensures a[0] == b[0]
  {
    var x, y := a[0], b[0];
    assert x in multiset(b) && y in multiset(a);
    if x != y {
      var j :| 0 <= j < |b| && b[j] == x;
      var i :| 0 <= i < |a| && a[i] == y;
      assert i != 0 && j != 0;
      assert KeyLe(a[0], a[i]);
      assert KeyLe(b[0], b[j]);
      KeyAntisymmetric(x, y);
    }
  }

  /** A permutation keeps the keys and their number. */
  lemma SortKeysMembers(s: seq<int>, r: seq<int>)
    requires multiset(r) == multiset(s)
    ensures |r| == |s| && forall k :: 0 <= k < |r| ==> r[k] in s
  {
    assert |r| == |multiset(r)| == |multiset(s)| == |s|;
    forall k | 0 <= k < |r|
      ensures r[k] in s
    {
      assert r[k] in multiset(r);
    }
  }

  // ---- the popup -------------------------------------------------------

  /** Every selected index names a detected text with a polygon. */
  predicate SelectionValid(t: Tokens) {
    forall i :: i in t.selectedIndices ==> 0 <= i < |t.list| && t.list[i].vertices != []
  }

  /** The list's entries at the given indices, in the order given. */
  function Pick(list: seq<VisionText>, keys: seq<int>): (r: seq<VisionText>)
    requires forall k :: 0 <= k < |keys| ==> 0 <= keys[k] < |list|
    ensures |r| == |keys| && forall k :: 0 <= k < |keys| ==> r[k] == list[keys[k]]
  {
    seq(|keys|, k requires 0 <= k < |keys| => list[keys[k]])
  }

  /** The selected detected texts, in sorted index order. */
  function SelectedTokens(t: Tokens): (r: seq<VisionText>)
    requires SelectionValid(t)
    ensures |r| == |t.selectedIndices|
    ensures forall k :: 0 <= k < |r| ==> r[k].vertices != []
    ensures forall k :: 0 <= k < |r| ==> r[k] == t.list[SortKeys(t.selectedIndices)[k]]
  {
    Pick(t.list, SortKeys(t.selectedIndices))
  }

  function MaxOf(a: int, b: int): int {
    if a >= b then a else b
  }

  function MinOf(a: int, b: int): int {
    if a <= b then a else b
  }

  function Boxes(ts: seq<VisionText>): (r: seq<Position>)
    requires forall k :: 0 <= k < |ts| ==> ts[k].vertices != []
    ensures |r| == |ts| && forall k :: 0 <= k < |ts| ==> r[k] == GetPosition(ts[k].vertices)
  {
    seq(|ts|, k requires 0 <= k < |ts| => GetPosition(ts[k].vertices))
  }

  datatype Anchor = Anchor(top: int, left: int)

  /** The popup's anchor, reduced over the boxes from `{top: 0, left:
      parentWidth}`: below the lowest `bottom + height`, at the leftmost
      `left`. */
  function AnchorOf(ps: seq<Position>, parentWidth: int): (a: Anchor)
    ensures a.top >= 0 && a.left <= parentWidth
    ensures forall k :: 0 <= k < |ps| ==> ps[k].bottom + ps[k].height <= a.top && a.left <= ps[k].left
    ensures a.top == 0 || exists k :: 0 <= k < |ps| && a.top == ps[k].bottom + ps[k].height
    ensures a.left == parentWidth || exists k :: 0 <= k < |ps| && a.left == ps[k].left
  {
    if ps == [] then Anchor(0, parentWidth)
    else
      var n := |ps| - 1;
      var a := AnchorOf(ps[..n], parentWidth);
      assert forall k :: 0 <= k < n ==> ps[..n][k] == ps[k];
      Anchor(MaxOf(a.top, ps[n].bottom + ps[n].height), MinOf(a.left, ps[n].left))
  }

  datatype Area = Area(top: int, bottom: int, left: int, right: int)

  /** The proposed crop area, reduced over the boxes from the whole parent
      turned inside out (`top` at its height, `bottom` at 0, `left` at its
      width, `right` at 0). */
  function CropArea(ps: seq<Position>, parentWidth: int, parentHeight: int): (c: Area)
    ensures c.top <= parentHeight && c.bottom >= 0 && c.left <= parentWidth && c.right >= 0
    ensures forall k :: 0 <= k < |ps| ==>
      c.top <= ps[k].top && ps[k].bottom <= c.bottom && c.left <= ps[k].left && ps[k].right <= c.right
    ensures c.top == parentHeight || exists k :: 0 <= k < |ps| && c.top == ps[k].top
    ensures c.bottom == 0 || exists k :: 0 <= k < |ps| && c.bottom == ps[k].bottom
    ensures c.left == parentWidth || exists k :: 0 <= k < |ps| && c.left == ps[k].left
    ensures c.right == 0 || exists k :: 0 <= k < |ps| && c.right == ps[k].right
  {
    if ps == [] then Area(parentHeight, 0, parentWidth, 0)
    else
      var n := |ps| - 1;
      var c := CropArea(ps[..n], parentWidth, parentHeight);
      assert forall k :: 0 <= k < n ==> ps[..n][k] == ps[k];
      Area(MinOf(c.top, ps[n].top), MaxOf(c.bottom, ps[n].bottom), MinOf(c.left, ps[n].left), MaxOf(c.right, ps[n].right))
  }

  /** When the boxes lie inside the parent, the crop area is exactly the
      smallest area holding them all (boxes from `getPosition` have their
      top above their bottom and their left before their right). */
  lemma CropAreaIsTightInsideParent(ps: seq<Position>, parentWidth: int, parentHeight: int)
    requires ps != []
    requires forall k :: 0 <= k < |ps| ==>
      0 <= ps[k].top <= ps[k].bottom <= parentHeight && 0 <= ps[k].left <= ps[k].right <= parentWidth
    ensures var c := CropArea(ps, parentWidth, parentHeight);
      (exists k :: 0 <= k < |ps| && c.top == ps[k].top) &&
      (exists k :: 0 <= k < |ps| && c.bottom == ps[k].bottom) &&
      (exists k :: 0 <= k < |ps| && c.left == ps[k].left) &&
      (exists k :: 0 <= k < |ps| && c.right == ps[k].right)
  {
    var c := CropArea(ps, parentWidth, parentHeight);
    var p := ps[0];
    if c.top == parentHeight {
      assert c.top <= p.top <= p.bottom <= parentHeight;
    }
    if c.bottom == 0 {
      assert 0 <= p.top <= p.bottom <= c.bottom;
    }
    if c.left == parentWidth {
      assert c.left <= p.left <= p.right <= parentWidth;
    }
    if c.right == 0 {
      assert 0 <= p.left <= p.right <= c.right;
    }
  }

  /** `selectedText`: the descriptions joined by spaces, trimmed and
      lowercased. */
  function SelectedText(ts: seq<VisionText>, trim: string -> string, lower: string -> string): string {
    lower(trim(Join(seq(|ts|, k requires 0 <= k < |ts| => ts[k].description), " ")))
  }

  datatype PopupView = PopupView(anchor: Anchor, text: string, cropArea: Area)

  /** `Popup`: nothing without tokens or without a selection; otherwise the
      anchor, text and crop area of the selected tokens in sorted order. */
  function Render(tokens: Option<Tokens>, parentWidth: int, parentHeight: int,
                  trim: string -> string, lower: string -> string): (r: Option<PopupView>)
    requires tokens.Some? ==> SelectionValid(tokens.value)
    ensures r.None? <==> tokens.None? || tokens.value.selectedIndices == []
    ensures r.Some? ==> var selected := SelectedTokens(tokens.value);
      r.value == PopupView(AnchorOf(Boxes(selected), parentWidth), SelectedText(selected, trim, lower),
                           CropArea(Boxes(selected), parentWidth, parentHeight))
  {
    if tokens.None? then None
    else
      var selected := SelectedTokens(tokens.value);
      if |selected| == 0 then None
      else
        var boxes := Boxes(selected);
        Some(PopupView(AnchorOf(boxes, parentWidth), SelectedText(selected, trim, lower),
                       CropArea(boxes, parentWidth, parentHeight)))
  }

  /** The order in which texts were selected does not change the popup. */
  lemma RenderIgnoresSelectionOrder(list: seq<VisionText>, a: seq<int>, b: seq<int>, parentWidth: int,
                                      parentHeight: int, trim: string -> string, lower: string -> string)
    requires multiset(a) == multiset(b)
    requires SelectionValid(Tokens(a, list))
    ensures SelectionValid(Tokens(b, list))
    ensures Render(Some(Tokens(a, list)), parentWidth, parentHeight, trim, lower)
         == Render(Some(Tokens(b, list)), parentWidth, parentHeight, trim, lower)
  {
    forall i | i in b
      ensures i in a
    {
      assert i in multiset(b);
    }
    SortedUnique(SortKeys(a), SortKeys(b));
    assert SelectedTokens(Tokens(a, list)) == SelectedTokens(Tokens(b, list));
  }
}
