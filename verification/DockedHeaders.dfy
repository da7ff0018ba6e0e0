/** Docking the headers of stacked panels at the edges of their viewport. Lengths are real numbers. */
module DockedHeaders {

  datatype Dock = Natural | Top | Bottom

  /** The panels' header heights and natural tops, in order, and the height of the viewport. */
  datatype Layout = Layout(heights: seq<real>, tops: seq<real>, view: real) {
    /** Headers in normal flow do not overlap. */
    predicate Valid() {
      && |heights| == |tops| && view > 0.0
      && (forall i :: 0 <= i < |heights| ==> heights[i] > 0.0)
      && (forall i :: 0 < i < |tops| ==> tops[i - 1] + heights[i - 1] <= tops[i])
    }

    predicate Crowded() { Sum(heights, |heights|) > view - (if view / 2.0 < 100.0 then view / 2.0 else 100.0) }

    /** The room needed by the headers before `i`. */
    function Preceding(i: nat): real
      requires i <= |heights|
    {
      Sum(heights, i)
    }

    /** Where header `i` goes if it and all headers after it are at the bottom. */
    function Lowest(i: nat): real
      requires i <= |heights|
    {
      view - Sum(heights, |heights|) + Preceding(i)
    }

    function DockOf(i: nat): Dock
      requires i < |heights| && |heights| == |tops|
    {
      if Crowded() then Natural
      else if tops[i] < Preceding(i) then Top
      else if tops[i] > Lowest(i) then Bottom
      else Natural
    }

    /** The top edge of header `i` as it is shown. */
    function Shown(i: nat): real
      requires i < |heights| && |heights| == |tops|
    {
      match DockOf(i)
      case Natural => tops[i]
      case Top => Preceding(i)
      case Bottom => Lowest(i)
    }
  }

  /** The sum of the first `n`. */
  function Sum(s: seq<real>, n: nat): real
    requires n <= |s|
    decreases n
  {
    if n == 0 then 0.0 else Sum(s, n - 1) + s[n - 1]
  }

  /** The heights of the headers docked at `dock`, among the first `n`. */
  function Docked(l: Layout, dock: Dock, n: nat): real
    requires l.Valid() && n <= |l.heights|
    decreases n
  {
    if n == 0 then 0.0 else Docked(l, dock, n - 1) + (if l.DockOf(n - 1) == dock then l.heights[n - 1] else 0.0)
  }

  method Measure(l: Layout) returns (docks: seq<Dock>, offsets: seq<real>, topInset: real, bottomInset: real)
    requires l.Valid()
    ensures |docks| == |offsets| == |l.heights|
    ensures forall i :: 0 <= i < |docks| ==> docks[i] == l.DockOf(i)
    ensures forall i :: 0 <= i < |docks| && docks[i] != Natural ==> offsets[i] == l.Shown(i)
    ensures topInset == Docked(l, Top, |l.heights|) && bottomInset == Docked(l, Bottom, |l.heights|)
  {
    var n := |l.heights|;
    var total := 0.0;
    for i := 0 to n
      invariant total == Sum(l.heights, i)
    {
      total := total + l.heights[i];
    }
    var crowded := total > l.view - (if l.view / 2.0 < 100.0 then l.view / 2.0 else 100.0);
    var preceding := 0.0;
    docks, offsets, topInset, bottomInset := [], [], 0.0, 0.0;
    for i := 0 to n
      invariant |docks| == |offsets| == i && preceding == l.Preceding(i)
      invariant Placed(l, docks, offsets)
      invariant topInset == TopInset(l, i) && bottomInset == BottomInset(l, i)
    {
      var bottom := l.view - total + preceding;
      var dock :=
        if crowded then Natural
        else if l.tops[i] < preceding then Top
        else if l.tops[i] > bottom then Bottom
        else Natural;
      var offset := if dock == Top then preceding else bottom;
      assert bottom == l.Lowest(i) && dock == l.DockOf(i) && (dock != Natural ==> offset == l.Shown(i));
      PlacedMore(l, docks, offsets, dock, offset);
      docks, offsets := docks + [dock], offsets + [offset];
      if dock == Top { topInset := preceding + l.heights[i]; }
      if dock == Bottom && total - preceding > bottomInset { bottomInset := total - preceding; }
      preceding := preceding + l.heights[i];
    }
    TopInsetIsSum(l, n);
    BottomInsetIsSum(l);
  }

  /** The first headers have their docks, and the docked ones their offsets. */
  ghost predicate Placed(l: Layout, docks: seq<Dock>, offsets: seq<real>)
    requires l.Valid()
  {
    && |docks| == |offsets| <= |l.heights|
    && (forall k :: 0 <= k < |docks| ==> docks[k] == l.DockOf(k))
    && (forall k :: 0 <= k < |docks| && docks[k] != Natural ==> offsets[k] == l.Shown(k))
  }

  lemma {:induction false} PlacedMore(l: Layout, docks: seq<Dock>, offsets: seq<real>, dock: Dock, offset: real)
    requires l.Valid() && Placed(l, docks, offsets) && |docks| < |l.heights|
    requires dock == l.DockOf(|docks|) && (dock != Natural ==> offset == l.Shown(|docks|))
    ensures Placed(l, docks + [dock], offsets + [offset])
  {
  }

  /** What the loop has for the insets after `n` headers. */
  function TopInset(l: Layout, n: nat): real
    requires l.Valid() && n <= |l.heights|
    decreases n
  {
    if n == 0 then 0.0
    else if l.DockOf(n - 1) == Top then l.Preceding(n - 1) + l.heights[n - 1]
    else TopInset(l, n - 1)
  }

  function BottomInset(l: Layout, n: nat): real
    requires l.Valid() && n <= |l.heights|
    decreases n
  {
    if n == 0 then 0.0
    else
      var before, room := BottomInset(l, n - 1), Sum(l.heights, |l.heights|) - l.Preceding(n - 1);
      if l.DockOf(n - 1) == Bottom && room > before then room else before
  }

  // ----- Properties of the positions

  /** The header after one that is docked at the bottom is too; the header before one at the top is too. */
  lemma {:induction false} DocksSpread(l: Layout, i: nat)
    requires l.Valid() && 0 < i < |l.heights|
    ensures l.DockOf(i) == Top ==> l.DockOf(i - 1) == Top
    ensures l.DockOf(i - 1) == Bottom ==> l.DockOf(i) == Bottom
  {
  }

  lemma {:induction false} RoomLeft(l: Layout)
    requires l.Valid()
    ensures !l.Crowded() ==> Sum(l.heights, |l.heights|) < l.view
  {
  }

  lemma {:induction false} SumGrows(s: seq<real>, i: nat, j: nat)
    requires i <= j <= |s| && forall k :: 0 <= k < |s| ==> s[k] > 0.0
    ensures 0.0 <= Sum(s, i) <= Sum(s, j)
    decreases j
  {
    if i < j { SumGrows(s, i, j - 1); } else if j > 0 { SumGrows(s, i - 1, j - 1); }
  }

  /** Top-docked headers come first and bottom-docked ones last. */
  lemma {:induction false} DocksAreOrdered(l: Layout, i: nat, j: nat)
    requires l.Valid() && i < j < |l.heights|
    ensures l.DockOf(j) == Top ==> l.DockOf(i) == Top
    ensures l.DockOf(i) == Bottom ==> l.DockOf(j) == Bottom
    decreases j - i
  {
    DocksSpread(l, j);
    if i < j - 1 { DocksAreOrdered(l, i, j - 1); }
  }

  /** In an uncrowded viewport, headers are shown inside it and never overlap. */
  lemma {:induction false} ShownApart(l: Layout, i: nat)
    requires l.Valid() && !l.Crowded() && i < |l.heights|
    ensures 0.0 <= l.Preceding(i) <= l.Shown(i) && l.Shown(i) + l.heights[i] <= l.view
    ensures i > 0 ==> l.Shown(i - 1) + l.heights[i - 1] <= l.Shown(i)
  {
    RoomLeft(l);
    SumGrows(l.heights, i + 1, |l.heights|);
    SumGrows(l.heights, i, i + 1);
    assert Sum(l.heights, i + 1) == l.Preceding(i) + l.heights[i];
    if i > 0 { assert l.Preceding(i) == l.Preceding(i - 1) + l.heights[i - 1]; }
  }

  /** No two headers overlap, whatever lies between them. */
  lemma {:induction false} NoOverlap(l: Layout, i: nat, j: nat)
    requires l.Valid() && !l.Crowded() && i < j < |l.heights|
    ensures l.Shown(i) + l.heights[i] <= l.Shown(j)
    decreases j - i
  {
    ShownApart(l, j);
    if i < j - 1 { NoOverlap(l, i, j - 1); }
  }

  /** The docked bars leave 100 pixels of the viewport, or half of it if that is less. */
  lemma {:induction false} CrowdedMeans(l: Layout)
    ensures !l.Crowded() <==> Sum(l.heights, |l.heights|) <= l.view - 100.0 || Sum(l.heights, |l.heights|) <= l.view / 2.0
  {
  }

  function Distance(a: real, b: real): real { if a <= b then b - a else a - b }

  /**
   * A header is shown as near to its natural place as the headers before it and after it allow, and
   * is left alone exactly if they allow its natural place.
   */
  lemma {:induction false} ShownIsNearest(l: Layout, i: nat)
    requires l.Valid() && !l.Crowded() && i < |l.heights|
    ensures l.Preceding(i) <= l.Shown(i) <= l.Lowest(i)
    ensures forall x :: l.Preceding(i) <= x <= l.Lowest(i) ==> Distance(l.Shown(i), l.tops[i]) <= Distance(x, l.tops[i])
    ensures l.DockOf(i) == Natural <==> l.Preceding(i) <= l.tops[i] <= l.Lowest(i)
  {
    RoomLeft(l);
  }

  /** Docked headers stand edge to edge, from the top of the viewport down and from its bottom up. */
  lemma {:induction false} DockedStack(l: Layout, i: nat)
    requires l.Valid() && i < |l.heights|
    ensures l.DockOf(i) == Top ==>
      if i == 0 then l.Shown(i) == 0.0
      else l.DockOf(i - 1) == Top && l.Shown(i) == l.Shown(i - 1) + l.heights[i - 1]
    ensures l.DockOf(i) == Bottom ==>
      if i == |l.heights| - 1 then l.Shown(i) + l.heights[i] == l.view
      else l.DockOf(i + 1) == Bottom && l.Shown(i + 1) == l.Shown(i) + l.heights[i]
  {
    if i > 0 { DocksSpread(l, i); }
    if i < |l.heights| - 1 { DocksSpread(l, i + 1); }
  }

  /** In a crowded viewport nothing is docked and the content is not inset. */
  lemma {:induction false} CrowdedStays(l: Layout, n: nat)
    requires l.Valid() && l.Crowded() && n <= |l.heights|
    ensures forall i :: 0 <= i < n ==> l.DockOf(i) == Natural && l.Shown(i) == l.tops[i]
    ensures Docked(l, Top, n) == 0.0 && Docked(l, Bottom, n) == 0.0
    decreases n
  {
    if n > 0 { CrowdedStays(l, n - 1); }
  }

  // ----- The insets are the heights of the docked groups

  lemma {:induction false} TopInsetIsSum(l: Layout, n: nat)
    requires l.Valid() && n <= |l.heights|
    ensures TopInset(l, n) == Docked(l, Top, n)
    ensures n > 0 && l.DockOf(n - 1) == Top ==> Docked(l, Top, n) == l.Preceding(n)
    decreases n
  {
    if n > 0 {
      TopInsetIsSum(l, n - 1);
      if n > 1 { DocksSpread(l, n - 1); }
    }
  }

  /** The room below the headers before `n`, as the loop would dock header `n`. */
  function Room(l: Layout, n: nat): real
    requires n <= |l.heights|
  {
    Sum(l.heights, |l.heights|) - l.Preceding(n)
  }

  lemma {:induction false} RoomShrinks(l: Layout, n: nat)
    requires l.Valid() && 0 < n <= |l.heights|
    ensures Room(l, n - 1) == Room(l, n) + l.heights[n - 1] && Room(l, n) >= 0.0
  {
    SumGrows(l.heights, n, |l.heights|);
  }

  predicate BottomAt(l: Layout, n: nat)
    requires l.Valid() && n <= |l.heights|
  {
    n > 0 && l.DockOf(n - 1) == Bottom
  }

  /** Before the first bottom-docked header the inset is nothing; from then on it is the first one's room. */
  ghost predicate BottomAccount(l: Layout, n: nat)
    requires l.Valid() && n <= |l.heights|
  {
    if BottomAt(l, n) then BottomInset(l, n) > Room(l, n) && Docked(l, Bottom, n) == BottomInset(l, n) - Room(l, n)
    else BottomInset(l, n) == 0.0 && Docked(l, Bottom, n) == 0.0
  }

  lemma {:induction false} BottomStep(l: Layout, n: nat)
    requires l.Valid() && 0 < n <= |l.heights| && BottomAccount(l, n - 1)
    ensures BottomAccount(l, n)
  {
    RoomShrinks(l, n);
    if n > 1 { DocksSpread(l, n - 1); }
  }

  lemma {:induction false} BottomAccounts(l: Layout, n: nat)
    requires l.Valid() && n <= |l.heights|
    ensures BottomAccount(l, n)
    decreases n
  {
    if n > 0 {
      BottomAccounts(l, n - 1);
      BottomStep(l, n);
    }
  }

  lemma {:induction false} BottomInsetIsSum(l: Layout)
    requires l.Valid()
    ensures BottomInset(l, |l.heights|) == Docked(l, Bottom, |l.heights|)
  {
    BottomAccounts(l, |l.heights|);
  }
}
