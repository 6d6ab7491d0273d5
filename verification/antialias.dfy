/** The anti-aliasing heuristic: `has_many_siblings` and `antialiased`, each modelled as the
    source's scan over the eight clamped neighbours (with its early exits), together with the
    declarative statement of what the scan decides. */
module AntiAlias {
  import opened Pixels
  import opened Metric
  import opened Tally

  /** For each neighbour in scan order, whether its RGBA equals the centre's exactly. */
  function SiblingFlags(img: Image, x: nat, y: nat): (flags: seq<bool>)
    requires InBounds(img, x, y)
    ensures |flags| == 8
    ensures forall k :: 0 <= k < 8 ==>
      (flags[k] <==> At(img, Neighbours(img, x, y)[k].0, Neighbours(img, x, y)[k].1) == At(img, x, y))
  {
    var ns := Neighbours(img, x, y);
    seq(8, k requires 0 <= k < 8 => At(img, ns[k].0, ns[k].1) == At(img, x, y))
  }

  /** The loop of `has_many_siblings` from neighbour `k` on, `zeroes` equal neighbours seen so far:
      it answers `true` as soon as the tally passes 2, and `false` when the window runs out. */
  function SiblingScan(flags: seq<bool>, k: nat, zeroes: nat): bool
    requires k <= |flags|
    decreases |flags| - k
  {
    if k == |flags| then false
    else
      var z := if flags[k] then zeroes + 1 else zeroes;
      if z > 2 then true else SiblingScan(flags, k + 1, z)
  }

  /** Stopping at the third equal neighbour does not change the answer: the scan is true exactly
      when the whole window holds at least three equal neighbours. */
  lemma {:induction false} SiblingScanCounts(flags: seq<bool>, k: nat, zeroes: nat)
    requires k <= |flags|
    requires zeroes == CountTrue(flags[..k]) && zeroes <= 2
    ensures SiblingScan(flags, k, zeroes) <==> CountTrue(flags) >= 3
    decreases |flags| - k
  {
    if k == |flags| {
      assert flags[..k] == flags;
    } else {
      CountTrueStep(flags, k);
      var z := if flags[k] then zeroes + 1 else zeroes;
      if z > 2 {
        CountTruePrefix(flags, k + 1, |flags|);
        assert flags[..|flags|] == flags;
      } else {
        SiblingScanCounts(flags, k + 1, z);
      }
    }
  }

  /** `has_many_siblings(img, x, y, width, height)`: true exactly when at least three of the eight
      clamped neighbours have the centre's RGBA. */
  function HasManySiblings(img: Image, x: nat, y: nat): (b: bool)
    requires InBounds(img, x, y)
    ensures b <==> CountTrue(SiblingFlags(img, x, y)) >= 3
  {
    var flags := SiblingFlags(img, x, y);
    SiblingScanCounts(flags, 0, 0);
    SiblingScan(flags, 0, 0)
  }

  /** At a corner the window contains the corner pixel itself three times, so a corner pixel
      always has many siblings. */
  lemma CornerHasManySiblings(img: Image, x: nat, y: nat)
    requires InBounds(img, x, y)
    requires (x == 0 || x == img.width - 1) && (y == 0 || y == img.height - 1)
    ensures HasManySiblings(img, x, y)
  {
    var ks := CornerSelfIndices(img, x, y);
    CountTrueThree(SiblingFlags(img, x, y), ks.0, ks.1, ks.2);
  }

  /** The brightness deltas `color_delta(center, neighbour, true)` in scan order. */
  function BrightnessDeltas(img: Image, x: nat, y: nat): (ds: seq<real>)
    requires InBounds(img, x, y)
    ensures |ds| == 8
    ensures forall k :: 0 <= k < 8 ==>
      ds[k] == ColorDelta(At(img, x, y), At(img, Neighbours(img, x, y)[k].0, Neighbours(img, x, y)[k].1), true)
  {
    var ns := Neighbours(img, x, y);
    seq(8, k requires 0 <= k < 8 => ColorDelta(At(img, x, y), At(img, ns[k].0, ns[k].1), true))
  }

  /** Which deltas are exactly zero. */
  function ZeroFlags(ds: seq<real>): (flags: seq<bool>)
    ensures |flags| == |ds|
    ensures forall k :: 0 <= k < |ds| ==> (flags[k] <==> ds[k] == 0.0)
  {
    seq(|ds|, k requires 0 <= k < |ds| => ds[k] == 0.0)
  }

  /** The running state of the `antialiased` loop: equal-brightness count, strict running
      minimum and maximum of the deltas, and where each was seen. */
  datatype Extremes = Extremes(zeroes: nat, min: real, minAt: (nat, nat), max: real, maxAt: (nat, nat))

  /** The state before the first neighbour. */
  const Unscanned: Extremes := Extremes(0, 0.0, (0, 0), 0.0, (0, 0))

  /** How the loop ends: an early return because of a third zero delta, or a completed scan. */
  datatype Scan = Flat | Scanned(extremes: Extremes)

  /** The body of the loop of `antialiased` for neighbour `k`, when it does not return early: a
      zero delta is tallied; otherwise a delta strictly below the minimum replaces it, and
      failing that a delta strictly above the maximum replaces it. */
  function ScanStep(ds: seq<real>, ns: seq<(nat, nat)>, k: nat, s: Extremes): (t: Extremes)
    requires |ds| == |ns| && k < |ds|
    ensures t.minAt == s.minAt || t.minAt == ns[k]
    ensures t.maxAt == s.maxAt || t.maxAt == ns[k]
  {
    if ds[k] == 0.0 then s.(zeroes := s.zeroes + 1)
    else if ds[k] < s.min then s.(min := ds[k], minAt := ns[k])
    else if ds[k] > s.max then s.(max := ds[k], maxAt := ns[k])
    else s
  }

  /** The loop of `antialiased` from neighbour `k` on; the third zero delta returns early.
      Remembered positions come from the scanned neighbours. */
  function BrightnessScan(ds: seq<real>, ns: seq<(nat, nat)>, k: nat, s: Extremes): (r: Scan)
    requires |ds| == |ns| && k <= |ds|
    ensures r.Scanned? ==> r.extremes.minAt == s.minAt || r.extremes.minAt in ns
    ensures r.Scanned? ==> r.extremes.maxAt == s.maxAt || r.extremes.maxAt in ns
    decreases |ds| - k
  {
    if k == |ds| then Scanned(s)
    else if ds[k] == 0.0 && s.zeroes + 1 > 2 then Flat
    else BrightnessScan(ds, ns, k + 1, ScanStep(ds, ns, k, s))
  }

  /** `ds[i]` is the least delta, it is negative, and no earlier delta equals it. */
  predicate FirstMinimum(ds: seq<real>, i: int) {
    && 0 <= i < |ds|
    && ds[i] < 0.0
    && (forall j :: 0 <= j < |ds| ==> ds[i] <= ds[j])
    && (forall j :: 0 <= j < i ==> ds[i] < ds[j])
  }

  /** `ds[i]` is the greatest delta, it is positive, and no earlier delta equals it. */
  predicate FirstMaximum(ds: seq<real>, i: int) {
    && 0 <= i < |ds|
    && ds[i] > 0.0
    && (forall j :: 0 <= j < |ds| ==> ds[j] <= ds[i])
    && (forall j :: 0 <= j < i ==> ds[j] < ds[i])
  }

  /** What the loop state means after the first `k` neighbours: the tally counts their zero
      deltas, the extremes bound them, and a non-zero extreme is the first occurrence of that
      value, remembered at its neighbour's coordinates. */
  ghost predicate ScanInvariant(ds: seq<real>, ns: seq<(nat, nat)>, k: nat, s: Extremes)
    requires |ds| == |ns| && k <= |ds|
  {
    && s.zeroes == CountTrue(ZeroFlags(ds)[..k])
    && s.zeroes <= 2
    && s.min <= 0.0 <= s.max
    && (forall j :: 0 <= j < k ==> s.min <= ds[j] <= s.max)
    && (s.min < 0.0 ==> exists i :: 0 <= i < k && ds[i] == s.min && ns[i] == s.minAt && forall j :: 0 <= j < i ==> ds[j] > s.min)
    && (s.max > 0.0 ==> exists i :: 0 <= i < k && ds[i] == s.max && ns[i] == s.maxAt && forall j :: 0 <= j < i ==> ds[j] < s.max)
  }

  /** A zero delta that is not the third one: only the tally moves. */
  lemma ScanStepZero(ds: seq<real>, ns: seq<(nat, nat)>, k: nat, s: Extremes)
    requires |ds| == |ns| && k < |ds| && ds[k] == 0.0 && s.zeroes + 1 <= 2
    requires ScanInvariant(ds, ns, k, s)
    ensures ScanInvariant(ds, ns, k + 1, s.(zeroes := s.zeroes + 1))
  {
    CountTrueStep(ZeroFlags(ds), k);
  }

  /** A delta strictly below the running minimum becomes the minimum, remembered here. */
  lemma ScanStepMin(ds: seq<real>, ns: seq<(nat, nat)>, k: nat, s: Extremes)
    requires |ds| == |ns| && k < |ds| && ds[k] != 0.0 && ds[k] < s.min
    requires ScanInvariant(ds, ns, k, s)
    ensures ScanInvariant(ds, ns, k + 1, s.(min := ds[k], minAt := ns[k]))
  {
    CountTrueStep(ZeroFlags(ds), k);
    var t := s.(min := ds[k], minAt := ns[k]);
    assert ds[k] == t.min && ns[k] == t.minAt && forall j :: 0 <= j < k ==> ds[j] > t.min;
  }

  /** A delta strictly above the running maximum (and not below the minimum) becomes the maximum. */
  lemma ScanStepMax(ds: seq<real>, ns: seq<(nat, nat)>, k: nat, s: Extremes)
    requires |ds| == |ns| && k < |ds| && ds[k] != 0.0 && s.min <= ds[k] && ds[k] > s.max
    requires ScanInvariant(ds, ns, k, s)
    ensures ScanInvariant(ds, ns, k + 1, s.(max := ds[k], maxAt := ns[k]))
  {
    CountTrueStep(ZeroFlags(ds), k);
    var t := s.(max := ds[k], maxAt := ns[k]);
    assert ds[k] == t.max && ns[k] == t.maxAt && forall j :: 0 <= j < k ==> ds[j] < t.max;
  }

  /** A non-zero delta within the running extremes changes nothing. */
  lemma ScanStepKeep(ds: seq<real>, ns: seq<(nat, nat)>, k: nat, s: Extremes)
    requires |ds| == |ns| && k < |ds| && ds[k] != 0.0 && s.min <= ds[k] <= s.max
    requires ScanInvariant(ds, ns, k, s)
    ensures ScanInvariant(ds, ns, k + 1, s)
  {
    CountTrueStep(ZeroFlags(ds), k);
  }

  /** The tally part of the invariant. */
  lemma ScanInvariantTally(ds: seq<real>, ns: seq<(nat, nat)>, k: nat, s: Extremes)
    requires |ds| == |ns| && k <= |ds|
    requires ScanInvariant(ds, ns, k, s)
    ensures s.zeroes == CountTrue(ZeroFlags(ds)[..k]) <= 2
  {
  }

  /** One loop iteration that does not return early keeps the invariant. */
  lemma ScanStepKeepsInvariant(ds: seq<real>, ns: seq<(nat, nat)>, k: nat, s: Extremes)
    requires |ds| == |ns| && k < |ds| && !(ds[k] == 0.0 && s.zeroes + 1 > 2)
    requires ScanInvariant(ds, ns, k, s)
    ensures ScanInvariant(ds, ns, k + 1, ScanStep(ds, ns, k, s))
  {
    if ds[k] == 0.0 {
      ScanStepZero(ds, ns, k, s);
    } else if ds[k] < s.min {
      ScanStepMin(ds, ns, k, s);
    } else if ds[k] > s.max {
      ScanStepMax(ds, ns, k, s);
    } else {
      ScanStepKeep(ds, ns, k, s);
    }
  }

  /** The loop keeps its invariant to the end, and it returns early exactly when the window
      holds more than two zero deltas. */
  lemma {:induction false} BrightnessScanKeepsInvariant(ds: seq<real>, ns: seq<(nat, nat)>, k: nat, s: Extremes)
    requires |ds| == |ns| && k <= |ds|
    requires ScanInvariant(ds, ns, k, s)
    ensures BrightnessScan(ds, ns, k, s).Flat? <==> CountTrue(ZeroFlags(ds)) > 2
    ensures BrightnessScan(ds, ns, k, s).Scanned? ==>
      ScanInvariant(ds, ns, |ds|, BrightnessScan(ds, ns, k, s).extremes)
    decreases |ds| - k
  {
    hide ScanInvariant;
    var zs := ZeroFlags(ds);
    ScanInvariantTally(ds, ns, k, s);
    if k == |ds| {
      assert zs[..k] == zs;
    } else if ds[k] == 0.0 && s.zeroes + 1 > 2 {
      CountTrueStep(zs, k);
      CountTruePrefix(zs, k + 1, |ds|);
      assert zs[..|ds|] == zs;
    } else {
      ScanStepKeepsInvariant(ds, ns, k, s);
      BrightnessScanKeepsInvariant(ds, ns, k + 1, ScanStep(ds, ns, k, s));
    }
  }

  /** The whole scan, declaratively: it returns early exactly when more than two deltas are zero;
      otherwise the remembered minimum is negative exactly when some delta is, and then it is the
      first least delta and its neighbour; likewise for the maximum. */
  lemma BrightnessScanSpec(ds: seq<real>, ns: seq<(nat, nat)>)
    requires |ds| == |ns|
    ensures BrightnessScan(ds, ns, 0, Unscanned).Flat? <==> CountTrue(ZeroFlags(ds)) > 2
    ensures BrightnessScan(ds, ns, 0, Unscanned).Scanned? ==>
      var s := BrightnessScan(ds, ns, 0, Unscanned).extremes;
      && s.zeroes == CountTrue(ZeroFlags(ds))
      && s.min <= 0.0 <= s.max
      && (s.min < 0.0 <==> exists i :: FirstMinimum(ds, i))
      && (forall i :: FirstMinimum(ds, i) ==> s.min == ds[i] && s.minAt == ns[i])
      && (s.max > 0.0 <==> exists i :: FirstMaximum(ds, i))
      && (forall i :: FirstMaximum(ds, i) ==> s.max == ds[i] && s.maxAt == ns[i])
  {
    assert ZeroFlags(ds)[..0] == [];
    BrightnessScanKeepsInvariant(ds, ns, 0, Unscanned);
    var r := BrightnessScan(ds, ns, 0, Unscanned);
    if r.Scanned? {
      hide ScanInvariant;
      ScanInvariantTally(ds, ns, |ds|, r.extremes);
      assert ZeroFlags(ds)[..|ds|] == ZeroFlags(ds);
      ScanFoundMinimum(ds, ns, r.extremes);
      ScanFoundMaximum(ds, ns, r.extremes);
    }
  }

  /** After the whole window, the remembered minimum is negative exactly when the deltas have a
      first least negative entry, and then it is that entry and its neighbour. */
  lemma ScanFoundMinimum(ds: seq<real>, ns: seq<(nat, nat)>, s: Extremes)
    requires |ds| == |ns|
    requires ScanInvariant(ds, ns, |ds|, s)
    ensures s.min <= 0.0
    ensures s.min < 0.0 <==> exists i :: FirstMinimum(ds, i)
    ensures forall i :: FirstMinimum(ds, i) ==> s.min == ds[i] && s.minAt == ns[i]
  {
    if s.min < 0.0 {
      var i0 :| 0 <= i0 < |ds| && ds[i0] == s.min && ns[i0] == s.minAt && forall j :: 0 <= j < i0 ==> ds[j] > s.min;
      assert FirstMinimum(ds, i0);
      forall i | FirstMinimum(ds, i)
        ensures s.min == ds[i] && s.minAt == ns[i]
      {
        assert i == i0;
      }
    }
  }

  /** Likewise for the remembered maximum. */
  lemma ScanFoundMaximum(ds: seq<real>, ns: seq<(nat, nat)>, s: Extremes)
    requires |ds| == |ns|
    requires ScanInvariant(ds, ns, |ds|, s)
    ensures s.max >= 0.0
    ensures s.max > 0.0 <==> exists i :: FirstMaximum(ds, i)
    ensures forall i :: FirstMaximum(ds, i) ==> s.max == ds[i] && s.maxAt == ns[i]
  {
    if s.max > 0.0 {
      var i0 :| 0 <= i0 < |ds| && ds[i0] == s.max && ns[i0] == s.maxAt && forall j :: 0 <= j < i0 ==> ds[j] < s.max;
      assert FirstMaximum(ds, i0);
      forall i | FirstMaximum(ds, i)
        ensures s.max == ds[i] && s.maxAt == ns[i]
      {
        assert i == i0;
      }
    }
  }

  /** Many siblings at `at` in both images. */
  predicate ManySiblingsInBoth(img1: Image, img2: Image, at: (nat, nat))
    requires SameDimensions(img1, img2) && InBounds(img1, at.0, at.1)
  {
    HasManySiblings(img1, at.0, at.1) && HasManySiblings(img2, at.0, at.1)
  }

  /** `antialiased(img1, x, y, width, height, img2)`. */
  function Antialiased(img1: Image, x: nat, y: nat, img2: Image): bool
    requires SameDimensions(img1, img2) && InBounds(img1, x, y)
  {
    var ns := Neighbours(img1, x, y);
    match BrightnessScan(BrightnessDeltas(img1, x, y), ns, 0, Unscanned)
    case Flat => false
    case Scanned(s) =>
      if s.min == 0.0 || s.max == 0.0 then false
      else ManySiblingsInBoth(img1, img2, s.minAt) || ManySiblingsInBoth(img1, img2, s.maxAt)
  }

  /** `antialiased` holds exactly when at most two neighbours have the centre's brightness, some
      neighbour gives a negative delta and some a positive one, and the first neighbour with the
      least delta or the first with the greatest delta has many siblings in both images. */
  lemma AntialiasedCharacterisation(img1: Image, x: nat, y: nat, img2: Image)
    requires SameDimensions(img1, img2) && InBounds(img1, x, y)
    ensures
      var ds := BrightnessDeltas(img1, x, y);
      var ns := Neighbours(img1, x, y);
      Antialiased(img1, x, y, img2) <==>
        && CountTrue(ZeroFlags(ds)) <= 2
        && exists i, j :: FirstMinimum(ds, i) && FirstMaximum(ds, j) &&
             (ManySiblingsInBoth(img1, img2, ns[i]) || ManySiblingsInBoth(img1, img2, ns[j]))
  {
    var ds := BrightnessDeltas(img1, x, y);
    var ns := Neighbours(img1, x, y);
    BrightnessScanSpec(ds, ns);
    var r := BrightnessScan(ds, ns, 0, Unscanned);
    if r.Scanned? && r.extremes.min != 0.0 && r.extremes.max != 0.0 {
      var i :| FirstMinimum(ds, i);
      var j :| FirstMaximum(ds, j);
      assert r.extremes.minAt == ns[i] && r.extremes.maxAt == ns[j];
    }
  }

  /** More than two neighbours with the centre's brightness: never anti-aliased. */
  lemma FlatNeighbourhoodNotAntialiased(img1: Image, x: nat, y: nat, img2: Image)
    requires SameDimensions(img1, img2) && InBounds(img1, x, y)
    requires CountTrue(ZeroFlags(BrightnessDeltas(img1, x, y))) > 2
    ensures !Antialiased(img1, x, y, img2)
  {
    AntialiasedCharacterisation(img1, x, y, img2);
  }

  /** When no neighbour is brighter than the centre (every delta is non-negative), or none is
      darker (every delta is non-positive), the pixel is never anti-aliased: an edge needs
      contrast on both sides. */
  lemma OneSidedNotAntialiased(img1: Image, x: nat, y: nat, img2: Image)
    requires SameDimensions(img1, img2) && InBounds(img1, x, y)
    requires
      var ds := BrightnessDeltas(img1, x, y);
      (forall k :: 0 <= k < 8 ==> ds[k] >= 0.0) || (forall k :: 0 <= k < 8 ==> ds[k] <= 0.0)
    ensures !Antialiased(img1, x, y, img2)
  {
    var ds := BrightnessDeltas(img1, x, y);
    AntialiasedCharacterisation(img1, x, y, img2);
    if forall k :: 0 <= k < 8 ==> ds[k] >= 0.0 {
      assert forall i :: !FirstMinimum(ds, i);
    } else {
      assert forall j :: !FirstMaximum(ds, j);
    }
  }

  /** A corner pixel sees itself three times, so three deltas are zero and it is never
      anti-aliased. */
  lemma CornerNeverAntialiased(img1: Image, x: nat, y: nat, img2: Image)
    requires SameDimensions(img1, img2) && InBounds(img1, x, y)
    requires (x == 0 || x == img1.width - 1) && (y == 0 || y == img1.height - 1)
    ensures !Antialiased(img1, x, y, img2)
  {
    var ks := CornerSelfIndices(img1, x, y);
    var ds := BrightnessDeltas(img1, x, y);
    CountTrueThree(ZeroFlags(ds), ks.0, ks.1, ks.2);
    FlatNeighbourhoodNotAntialiased(img1, x, y, img2);
  }
}
