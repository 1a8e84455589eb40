/** The two pieces of `BruTile.Utilities` the fetcher depends on: choosing
    the zoom level nearest to a resolution, and draining a stream. */
module Utilities {
  import opened Tiles
  import opened Sorting

  /** Sort key that orders resolutions from coarsest to finest. */
  function ByDescendingUnitsPerPixel(r: Resolution): real { -r.unitsPerPixel }

  /** How far a level's units-per-pixel lies from the requested value. */
  function DistanceTo(r: Resolution, target: real): real { Abs(r.unitsPerPixel - target) }

  /** `OrderByDescending(r => r.Value.UnitsPerPixel)`: the same entries,
      coarsest first. */
  function OrderByCoarseness(rs: seq<Resolution>): (sorted: seq<Resolution>)
    ensures |sorted| == |rs|
    ensures multiset(sorted) == multiset(rs)
    ensures forall i, j :: 0 <= i < j < |sorted| ==> sorted[j].unitsPerPixel <= sorted[i].unitsPerPixel
  {
    var s := SortBy(rs, ByDescendingUnitsPerPixel);
    assert forall i, j :: 0 <= i < j < |s| ==>
      ByDescendingUnitsPerPixel(s[i]) <= ByDescendingUnitsPerPixel(s[j]);
    s
  }

  /** Every entry of `rs` sits at some position of its ordered copy. */
  lemma InOrdered(rs: seq<Resolution>, y: Resolution) returns (j: nat)
    requires y in rs
    ensures j < |OrderByCoarseness(rs)| && OrderByCoarseness(rs)[j] == y
  {
    var sorted := OrderByCoarseness(rs);
    assert y in multiset(rs);
    assert y in sorted;
    j :| 0 <= j < |sorted| && sorted[j] == y;
  }

  /** The foreach over the ordered levels: a candidate replaces the current
      best only when strictly closer, so the result is the FIRST position
      whose distance is minimal. */
  function FirstNearest(s: seq<Resolution>, target: real): (k: nat)
    requires |s| > 0
    ensures k < |s|
    ensures forall j :: 0 <= j < |s| ==> DistanceTo(s[k], target) <= DistanceTo(s[j], target)
    ensures forall j :: 0 <= j < k ==> DistanceTo(s[k], target) < DistanceTo(s[j], target)
  {
    if |s| == 1 then 0
    else
      var k := FirstNearest(s[..|s| - 1], target);
      if DistanceTo(s[|s| - 1], target) < DistanceTo(s[k], target) then |s| - 1 else k
  }

  /** GetNearestLevel before the key is taken: the chosen dictionary entry. */
  function NearestResolution(rs: seq<Resolution>, target: real): (r: Result<Resolution>)
    ensures r.Failure? <==> |rs| == 0
    ensures r.Failure? ==> r.error == NoTileResolutions
    ensures r.Success? ==> r.value in rs
  {
    if |rs| == 0 then Failure(NoTileResolutions)
    else
      var sorted := OrderByCoarseness(rs);
      var last := sorted[|sorted| - 1];
      assert sorted[0] in multiset(rs) && last in multiset(rs);
      if last.unitsPerPixel > target then Success(last)            // finer than the finest level
      else if sorted[0].unitsPerPixel < target then Success(sorted[0]) // coarser than the coarsest
      else
        var k := FirstNearest(sorted, target);
        assert sorted[k] in multiset(rs);
        Success(sorted[k])
  }

  /** The level id nearest to `target`; an empty dictionary is an error. */
  function GetNearestLevel(rs: seq<Resolution>, target: real): (r: Result<string>)
    ensures r.Failure? <==> |rs| == 0
    ensures r.Success? ==> exists i :: 0 <= i < |rs| && rs[i].levelId == r.value
  {
    match NearestResolution(rs, target)
    case Success(x) =>
      assert exists i :: 0 <= i < |rs| && rs[i] == x;
      Success(x.levelId)
    case Failure(e) => Failure(e)
  }

  /** Every requested resolution is finer than all levels. */
  ghost predicate BelowRange(rs: seq<Resolution>, target: real) {
    forall y :: y in rs ==> target < y.unitsPerPixel
  }

  /** Every requested resolution is coarser than all levels. */
  ghost predicate AboveRange(rs: seq<Resolution>, target: real) {
    forall y :: y in rs ==> y.unitsPerPixel < target
  }

  /** `x` is at minimal distance and, among equally distant levels, has
      the largest units-per-pixel (the coarser one). */
  ghost predicate ClosestPreferCoarser(rs: seq<Resolution>, target: real, x: Resolution) {
    && (forall y :: y in rs ==> DistanceTo(x, target) <= DistanceTo(y, target))
    && (forall y :: y in rs && DistanceTo(y, target) == DistanceTo(x, target) ==>
          y.unitsPerPixel <= x.unitsPerPixel)
  }

  /** What "nearest level" means, stated without any ordering step:
      below the range the finest level, above it the coarsest, otherwise
      the closest level, ties going to the coarser one. */
  ghost predicate IsNearestLevel(rs: seq<Resolution>, target: real, x: Resolution) {
    && x in rs
    && (BelowRange(rs, target) ==> forall y :: y in rs ==> x.unitsPerPixel <= y.unitsPerPixel)
    && (AboveRange(rs, target) ==> forall y :: y in rs ==> y.unitsPerPixel <= x.unitsPerPixel)
    && (!BelowRange(rs, target) && !AboveRange(rs, target) ==> ClosestPreferCoarser(rs, target, x))
  }

  /** The ordered copy starts with a coarsest level and ends with a finest. */
  lemma OrderedBounds(rs: seq<Resolution>)
    requires |rs| > 0
    ensures var sorted := OrderByCoarseness(rs);
      && sorted[0] in rs && sorted[|sorted| - 1] in rs
      && forall y :: y in rs ==>
           sorted[|sorted| - 1].unitsPerPixel <= y.unitsPerPixel <= sorted[0].unitsPerPixel
  {
    var sorted := OrderByCoarseness(rs);
    assert sorted[0] in multiset(rs) && sorted[|sorted| - 1] in multiset(rs);
    forall y | y in rs
      ensures sorted[|sorted| - 1].unitsPerPixel <= y.unitsPerPixel <= sorted[0].unitsPerPixel
    {
      var j := InOrdered(rs, y);
    }
  }

  /** Inside the range the scan's first minimum is the closest level,
      and ties go to the coarser level because coarser levels come first. */
  lemma FirstNearestPrefersCoarser(rs: seq<Resolution>, target: real)
    requires |rs| > 0
    ensures ClosestPreferCoarser(rs, target,
      OrderByCoarseness(rs)[FirstNearest(OrderByCoarseness(rs), target)])
  {
    var sorted := OrderByCoarseness(rs);
    var k := FirstNearest(sorted, target);
    var x := sorted[k];
    forall y | y in rs
      ensures DistanceTo(x, target) <= DistanceTo(y, target)
      ensures DistanceTo(y, target) == DistanceTo(x, target) ==> y.unitsPerPixel <= x.unitsPerPixel
    {
      var j := InOrdered(rs, y);
      if j < k {
        assert DistanceTo(x, target) < DistanceTo(y, target);
      }
    }
  }

  /** The code's choice satisfies the order-free characterisation. */
  lemma NearestLevelCorrect(rs: seq<Resolution>, target: real)
    requires |rs| > 0
    ensures NearestResolution(rs, target).Success?
    ensures IsNearestLevel(rs, target, NearestResolution(rs, target).value)
  {
    var sorted := OrderByCoarseness(rs);
    var n := |sorted|;
    var x := NearestResolution(rs, target).value;
    OrderedBounds(rs);
    if sorted[n - 1].unitsPerPixel > target {
      assert x == sorted[n - 1];
      assert BelowRange(rs, target);
      assert !AboveRange(rs, target) by { assert sorted[0] in rs; }
    } else if sorted[0].unitsPerPixel < target {
      assert x == sorted[0];
      assert !BelowRange(rs, target) by { assert sorted[n - 1] in rs; }
      assert AboveRange(rs, target);
    } else {
      assert !BelowRange(rs, target) by { assert sorted[n - 1] in rs; }
      assert !AboveRange(rs, target) by { assert sorted[0] in rs; }
      FirstNearestPrefersCoarser(rs, target);
    }
  }

  /** The level id GetNearestLevel returns is that of a nearest level. */
  lemma GetNearestLevelIsNearest(rs: seq<Resolution>, target: real) returns (x: Resolution)
    requires |rs| > 0
    ensures GetNearestLevel(rs, target) == Success(x.levelId)
    ensures IsNearestLevel(rs, target, x)
  {
    NearestLevelCorrect(rs, target);
    x := NearestResolution(rs, target).value;
  }

  /** Three levels of 2.0, 1.0 and 0.5 units per pixel. */
  predicate ThreeLevels(l0: Resolution, l1: Resolution, l2: Resolution) {
    l0 == Resolution("L0", 2.0) && l1 == Resolution("L1", 1.0) && l2 == Resolution("L2", 0.5)
  }

  /** Inside the range the nearest level wins: 0.6 resolves to 0.5. */
  lemma NearestInsideRange(l0: Resolution, l1: Resolution, l2: Resolution)
    requires ThreeLevels(l0, l1, l2)
    ensures GetNearestLevel([l0, l1, l2], 0.6) == Success("L2")
  {
    var x := GetNearestLevelIsNearest([l0, l1, l2], 0.6);
    ThreeLevelsInside(l0, l1, l2, x);
  }

  lemma ThreeLevelsInside(l0: Resolution, l1: Resolution, l2: Resolution, x: Resolution)
    requires ThreeLevels(l0, l1, l2) && IsNearestLevel([l0, l1, l2], 0.6, x)
    ensures x == l2
  {
    var rs := [l0, l1, l2];
    assert l0 in rs && l2 in rs;
    assert !BelowRange(rs, 0.6) && !AboveRange(rs, 0.6);
    assert DistanceTo(x, 0.6) <= DistanceTo(l2, 0.6);
  }

  /** Beyond the coarsest level the coarsest wins: 3.0 resolves to 2.0. */
  lemma ClampedAboveRange(l0: Resolution, l1: Resolution, l2: Resolution)
    requires ThreeLevels(l0, l1, l2)
    ensures GetNearestLevel([l0, l1, l2], 3.0) == Success("L0")
  {
    var x := GetNearestLevelIsNearest([l0, l1, l2], 3.0);
    ThreeLevelsAbove(l0, l1, l2, x);
  }

  lemma ThreeLevelsAbove(l0: Resolution, l1: Resolution, l2: Resolution, x: Resolution)
    requires ThreeLevels(l0, l1, l2) && IsNearestLevel([l0, l1, l2], 3.0, x)
    ensures x == l0
  {
    var rs := [l0, l1, l2];
    assert l0 in rs;
    assert AboveRange(rs, 3.0) by {
      forall y | y in rs ensures y.unitsPerPixel < 3.0 {
        assert y == l0 || y == l1 || y == l2;
      }
    }
    assert l0.unitsPerPixel <= x.unitsPerPixel;
  }

  /** Below the finest level the finest wins: 0.0 resolves to 0.5. */
  lemma ClampedBelowRange(l0: Resolution, l1: Resolution, l2: Resolution)
    requires ThreeLevels(l0, l1, l2)
    ensures GetNearestLevel([l0, l1, l2], 0.0) == Success("L2")
  {
    var x := GetNearestLevelIsNearest([l0, l1, l2], 0.0);
    ThreeLevelsBelow(l0, l1, l2, x);
  }

  lemma ThreeLevelsBelow(l0: Resolution, l1: Resolution, l2: Resolution, x: Resolution)
    requires ThreeLevels(l0, l1, l2) && IsNearestLevel([l0, l1, l2], 0.0, x)
    ensures x == l2
  {
    var rs := [l0, l1, l2];
    assert l2 in rs;
    assert BelowRange(rs, 0.0) by {
      forall y | y in rs ensures 0.0 < y.unitsPerPixel {
        assert y == l0 || y == l1 || y == l2;
      }
    }
    assert x.unitsPerPixel <= l2.unitsPerPixel;
  }

  // ---- ReadFully ----

  /** Position of the first read that returned no bytes (or the end of the
      recorded delivered, after which the stream only returns 0). */
  function EndOfStream(delivered: seq<Bytes>): (k: nat)
    ensures k <= |delivered|
    ensures forall j :: 0 <= j < k ==> |delivered[j]| > 0
    ensures k < |delivered| ==> |delivered[k]| == 0
  {
    if |delivered| == 0 || |delivered[0]| == 0 then 0 else 1 + EndOfStream(delivered[1..])
  }

  /** The chunks in order, joined. */
  function Concat(chunks: seq<Bytes>): Bytes {
    if |chunks| == 0 then [] else Concat(chunks[..|chunks| - 1]) + chunks[|chunks| - 1]
  }

  /** Reads `stream` until a read returns 0 bytes. `delivered[i]` is what the
      i-th `Read` call delivered into the buffer. */
  method ReadFully(delivered: seq<Bytes>) returns (data: Bytes)
    ensures data == Concat(delivered[..EndOfStream(delivered)])
  {
    data := [];
    var i := 0;
    while true
      invariant 0 <= i <= EndOfStream(delivered)
      invariant data == Concat(delivered[..i])
      decreases |delivered| - i
    {
      var read := if i < |delivered| then delivered[i] else [];
      if |read| <= 0 {
        return;
      }
      assert delivered[..i + 1][..i] == delivered[..i];
      data := data + read;
      i := i + 1;
    }
  }
}
