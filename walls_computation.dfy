/** Wall (inset) generation for the parts of one layer: how many walls each
    part gets, which polygons and distances each offset is computed from,
    what the print outline becomes, and which parts are removed from the
    layer because they produced no wall at all. */
module Walls {
  import opened Geometry
  import opened CInt
  import opened SliceData

  class WallsComputation {
    /** Extra inward shift of the outer wall. */
    const wall0Inset: int
    /** Line width of the outer wall. */
    const lineWidth0: int
    /** Line width of the inner walls. */
    const lineWidthX: int
    /** The number of walls requested (a C++ `int`, so it may be negative). */
    const insetCount: int
    /** Whether the print outline is rebuilt from the outer wall. */
    const recomputeOutlineBasedOnOuterWall: bool
    /** Whether parts that end up with no inset are removed from the layer. */
    const removePartsWithNoInsets: bool
    /** The layer these walls belong to. */
    const layerNr: UInt32
    /** Whether the outer wall is textured by the halftoner. */
    const wavyWalls: bool
    /** The polygon library used for offsets and clean-up. */
    const geometry: Kernel
    /** The texturing applied to the outer wall when `wavyWalls` is set. */
    const halftoner: Halftoner

    constructor (wall0Inset: int, lineWidth0: int, lineWidthX: int, insetCount: int,
                 recomputeOutlineBasedOnOuterWall: bool, removePartsWithNoInsets: bool,
                 layerNr: UInt32, wavyWalls: bool, geometry: Kernel, halftoner: Halftoner)
      ensures this.wall0Inset == wall0Inset && this.lineWidth0 == lineWidth0
      ensures this.lineWidthX == lineWidthX && this.insetCount == insetCount
      ensures this.recomputeOutlineBasedOnOuterWall == recomputeOutlineBasedOnOuterWall
      ensures this.removePartsWithNoInsets == removePartsWithNoInsets
      ensures this.layerNr == layerNr && this.wavyWalls == wavyWalls
      ensures this.geometry == geometry && this.halftoner == halftoner
    {
      this.wall0Inset := wall0Inset;
      this.lineWidth0 := lineWidth0;
      this.lineWidthX := lineWidthX;
      this.insetCount := insetCount;
      this.recomputeOutlineBasedOnOuterWall := recomputeOutlineBasedOnOuterWall;
      this.removePartsWithNoInsets := removePartsWithNoInsets;
      this.layerNr := layerNr;
      this.wavyWalls := wavyWalls;
      this.geometry := geometry;
      this.halftoner := halftoner;
    }

    /** The kernel's operations, under the names the C++ code calls them by. */
    function Offset(p: Polygons, distance: int, join: JoinType): Polygons
    {
      geometry.offset(p, distance, join)
    }

    function Simplify(p: Polygons): Polygons
    {
      geometry.simplify(p)
    }

    function RemoveDegenerateVerts(p: Polygons): Polygons
    {
      geometry.removeDegenerateVerts(p)
    }

    function MakeHalftoned(layer: nat, p: Polygons): Polygons
    {
      halftoner.makeHalftoned(layer, p)
    }

    /** The signed offset distance that produces inset `i` from the polygons
        it is computed from (negative: inward). `-lineWidth0 / 2` negates
        before it divides, with C++ truncating division. Read as inward
        distances: half the outer width plus the outer-wall inset for the
        outer wall; half the outer width minus that inset plus half the inner
        width for the second wall; one inner width after that. */
    function InsetDistance(i: nat): (d: int)
      ensures i == 0 ==> d == -(Half(lineWidth0) + wall0Inset)
      ensures i == 1 ==> d == -(Half(lineWidth0) - wall0Inset + Half(lineWidthX))
      ensures i >= 2 ==> d == -lineWidthX
    {
      HalfOfNegation(lineWidth0);
      if i == 0 then Half(-lineWidth0) - wall0Inset
      else if i == 1 then Half(-lineWidth0) + wall0Inset - Half(lineWidthX)
      else -lineWidthX
    }

    /** Inset `i` as computed from `source` (the outline for inset 0, inset
        `i - 1` otherwise): offset, textured when it is the outer wall and
        wavy walls are on, then simplified and stripped of degenerate
        vertices. */
    function Candidate(i: nat, source: Polygons): Polygons
    {
      var offset := Offset(source, InsetDistance(i), DefaultJoin);
      var shaped := if i == 0 && wavyWalls then MakeHalftoned(layerNr, offset) else offset;
      RemoveDegenerateVerts(Simplify(shaped))
    }

    /** The polygons the next inset is offset from, once the insets `done`
        have been kept. */
    function Source(outline: Polygons, done: seq<Polygons>): Polygons
    {
      if done == [] then outline else done[|done| - 1]
    }

    /** Every inset of `r` is the candidate computed from the one before it
        (from the outline for the first), and none of them is empty. */
    ghost predicate Derived(outline: Polygons, r: seq<Polygons>)
      decreases |r|
    {
      r != [] ==>
        var done := r[..|r| - 1];
        && Derived(outline, done)
        && r[|r| - 1] == Candidate(|r| - 1, Source(outline, done))
        && !r[|r| - 1].IsEmpty()
    }

    /** `r` is what a loop of at most `k` rounds keeps: a derived sequence
        of at most `k` insets that, if shorter than `k`, ends because the next
        candidate was empty. */
    ghost predicate IsInsetSequence(outline: Polygons, k: nat, r: seq<Polygons>)
    {
      && |r| <= k
      && Derived(outline, r)
      && (|r| < k ==> Candidate(|r|, Source(outline, r)).IsEmpty())
    }

    /** `Derived`, read element by element: inset `i` is the candidate built
        from the insets before it, and it is not empty. */
    lemma {:induction false} DerivedAt(outline: Polygons, r: seq<Polygons>, i: nat)
      requires Derived(outline, r) && i < |r|
      ensures r[i] == Candidate(i, Source(outline, r[..i]))
      ensures !r[i].IsEmpty()
      ensures Derived(outline, r[..i + 1])
      decreases |r|
    {
      if i < |r| - 1 {
        var done := r[..|r| - 1];
        DerivedAt(outline, done, i);
        assert done[..i] == r[..i] && done[i] == r[i] && done[..i + 1] == r[..i + 1];
      } else {
        assert r[..i + 1] == r;
      }
    }

    /** Appending the next candidate, when it is not empty, to a derived
        sequence keeps it derived. */
    lemma DerivedSnoc(outline: Polygons, done: seq<Polygons>, next: Polygons)
      requires Derived(outline, done)
      requires next == Candidate(|done|, Source(outline, done)) && !next.IsEmpty()
      ensures Derived(outline, done + [next])
    {
      assert (done + [next])[..|done|] == done;
    }

    /** The insets kept when at most `k` are generated from `outline`; what
        they are is stated by `InsetChainIsInsetSequence`. */
    function InsetChain(outline: Polygons, k: nat): (r: seq<Polygons>)
      ensures |r| <= k
    {
      if k == 0 then []
      else
        var done := InsetChain(outline, k - 1);
        if |done| < k - 1 then done
        else
          var next := Candidate(k - 1, Source(outline, done));
          if next.IsEmpty() then done else done + [next]
    }

    /** The chain of `k` rounds is exactly what `k` rounds of generation
        keep. */
    lemma {:induction false} InsetChainIsInsetSequence(outline: Polygons, k: nat)
      ensures IsInsetSequence(outline, k, InsetChain(outline, k))
    {
      if k > 0 {
        InsetChainIsInsetSequence(outline, k - 1);
        var done := InsetChain(outline, k - 1);
        var next := Candidate(k - 1, Source(outline, done));
        if |done| == k - 1 && !next.IsEmpty() {
          DerivedSnoc(outline, done, next);
        }
      }
    }

    /** The insets of a part with the given outline after generation. With
        no wall requested the outline itself is the one inset. */
    function InsetsFor(outline: Polygons): (r: seq<Polygons>)
      ensures insetCount == 0 ==> r == [outline]
      ensures insetCount < 0 ==> r == []
      ensures insetCount > 0 ==> |r| <= insetCount
    {
      if insetCount == 0 then [outline]
      else if insetCount < 0 then []
      else InsetChain(outline, insetCount)
    }

    /** The print outline after generation, given its value `before`: the
        outline, or (when recomputed) the outer candidate grown back by half
        the outer line width with square joins. It is set even when that
        candidate turns out empty, and left alone when no round runs. */
    function PrintOutline(outline: Polygons, before: Polygons): (r: Polygons)
      ensures insetCount < 0 ==> r == before
      ensures insetCount == 0 ==> r == outline
      ensures insetCount > 0 && !recomputeOutlineBasedOnOuterWall ==> r == outline
    {
      if insetCount < 0 then before
      else if insetCount == 0 || !recomputeOutlineBasedOnOuterWall then outline
      else Offset(Candidate(0, outline), Half(lineWidth0), SquareJoin)
    }

    /** Two derived sequences agree wherever both are defined. */
    lemma {:induction false} DerivedAgree(outline: Polygons, r: seq<Polygons>, s: seq<Polygons>)
      requires Derived(outline, r) && Derived(outline, s) && |r| <= |s|
      ensures r == s[..|r|]
      decreases |r|
    {
      if r != [] {
        var n := |r| - 1;
        DerivedAt(outline, s, n);
        var t := s[..n + 1];
        assert t[..n] == s[..n];
        DerivedAgree(outline, r[..n], t[..n]);
        assert r[n] == s[n];
        assert r == r[..n] + [r[n]] && s[..n + 1] == s[..n] + [s[n]];
      }
    }

    /** Only one sequence meets the description of `IsInsetSequence`. */
    lemma InsetSequenceUnique(outline: Polygons, k: nat, r: seq<Polygons>, s: seq<Polygons>)
      requires IsInsetSequence(outline, k, r) && IsInsetSequence(outline, k, s)
      ensures r == s
    {
      if |r| <= |s| {
        DerivedAgree(outline, r, s);
        if |r| < |s| {
          DerivedAt(outline, s, |r|);
          assert false;
        }
      } else {
        DerivedAgree(outline, s, r);
        DerivedAt(outline, r, |s|);
        assert false;
      }
    }

    /** Asking for more rounds never changes the insets already kept: the
        insets of `k` rounds are a prefix of those of `m >= k` rounds. */
    lemma InsetChainPrefix(outline: Polygons, k: nat, m: nat)
      requires k <= m
      ensures |InsetChain(outline, k)| <= |InsetChain(outline, m)|
      ensures InsetChain(outline, k) == InsetChain(outline, m)[..|InsetChain(outline, k)|]
    {
      InsetChainIsInsetSequence(outline, k);
      InsetChainIsInsetSequence(outline, m);
      var s := InsetChain(outline, m);
      var n := if |s| < k then |s| else k;
      if n > 0 {
        DerivedAt(outline, s, n - 1);
      } else {
        assert s[..n] == [];
      }
      if n < k {
        assert s[..n] == s;
      }
      InsetSequenceUnique(outline, k, s[..n], InsetChain(outline, k));
    }

    /** One more round: the next candidate is kept unless it is empty. */
    lemma InsetChainStep(outline: Polygons, k: nat)
      requires |InsetChain(outline, k)| == k
      ensures var done := InsetChain(outline, k);
        var next := Candidate(k, Source(outline, done));
        InsetChain(outline, k + 1) == if next.IsEmpty() then done else done + [next]
    {
    }

    /** Once a round finds an empty candidate, further rounds add nothing. */
    lemma InsetChainStops(outline: Polygons, k: nat, m: nat)
      requires k <= m && |InsetChain(outline, k)| < k
      ensures InsetChain(outline, m) == InsetChain(outline, k)
    {
      InsetChainIsInsetSequence(outline, k);
      InsetChainIsInsetSequence(outline, m);
      InsetSequenceUnique(outline, m, InsetChain(outline, k), InsetChain(outline, m));
    }

    /** How inset `i` of a part is derived, in the terms of the C++ code: inset
        0 from the outline, inset `i >= 1` from inset `i - 1`, each at its
        distance, and the outer wall textured exactly when wavy walls are on. */
    lemma InsetProvenance(outline: Polygons, i: nat)
      requires insetCount > 0 && i < |InsetsFor(outline)|
      ensures var r := InsetsFor(outline);
        && r[i] == Candidate(i, if i == 0 then outline else r[i - 1])
        && (i == 0 ==> r[0] == RemoveDegenerateVerts(Simplify(
              if wavyWalls
              then MakeHalftoned(layerNr, Offset(outline, Half(-lineWidth0) - wall0Inset, DefaultJoin))
              else Offset(outline, Half(-lineWidth0) - wall0Inset, DefaultJoin))))
        && (i == 1 ==> r[1] == RemoveDegenerateVerts(Simplify(
              Offset(r[0], Half(-lineWidth0) + wall0Inset - Half(lineWidthX), DefaultJoin))))
        && (i >= 2 ==> r[i] == RemoveDegenerateVerts(Simplify(
              Offset(r[i - 1], -lineWidthX, DefaultJoin))))
    {
      var r := InsetsFor(outline);
      InsetChainIsInsetSequence(outline, insetCount);
      DerivedAt(outline, r, i);
      if i > 0 {
        assert r[..i][i - 1] == r[i - 1];
      }
    }

    /** Every inset kept is non-empty, and when fewer than `insetCount` are
        kept it is because the next candidate came out empty. */
    lemma RetainedInsetsNonEmpty(outline: Polygons)
      requires insetCount > 0
      ensures forall i :: 0 <= i < |InsetsFor(outline)| ==> !InsetsFor(outline)[i].IsEmpty()
      ensures var r := InsetsFor(outline);
        |r| < insetCount ==> Candidate(|r|, Source(outline, r)).IsEmpty()
    {
      var r := InsetsFor(outline);
      InsetChainIsInsetSequence(outline, insetCount);
      forall i | 0 <= i < |r| ensures !r[i].IsEmpty() {
        DerivedAt(outline, r, i);
      }
    }

    /** With recomputation on and at least one wall requested, the print
        outline is the outer wall grown back by half its line width, and so
        depends on the outline only through that wall. */
    lemma PrintOutlineFromOuterWall(outline: Polygons, before: Polygons)
      requires insetCount > 0 && recomputeOutlineBasedOnOuterWall
      ensures |InsetsFor(outline)| > 0 ==>
        PrintOutline(outline, before) == Offset(InsetsFor(outline)[0], Half(lineWidth0), SquareJoin)
      ensures |InsetsFor(outline)| == 0 ==>
        && Candidate(0, outline).IsEmpty()
        && PrintOutline(outline, before) == Offset(Candidate(0, outline), Half(lineWidth0), SquareJoin)
    {
      var r := InsetsFor(outline);
      InsetChainIsInsetSequence(outline, insetCount);
      if |r| > 0 {
        DerivedAt(outline, r, 0);
        assert r[..0] == [];
      }
    }

    /** The sum of the inward offset distances passed to the first `k`
        rounds (the negated signed distances). */
    function Depth(k: nat): int
    {
      if k == 0 then 0 else Depth(k - 1) - InsetDistance(k - 1)
    }

    /** The inward offset distances of the first `k` rounds sum to half the
        outer width plus `wall0Inset` for `k == 1`; from the second round on
        `wall0Inset` cancels out of the sum, and each later round adds one
        inner line width. */
    lemma {:induction false} DepthOfWalls(k: nat)
      requires k >= 1
      ensures k == 1 ==> Depth(k) == Half(lineWidth0) + wall0Inset
      ensures k >= 2 ==> Depth(k) == 2 * Half(lineWidth0) + Half(lineWidthX) + (k - 2) * lineWidthX
    {
      HalfOfNegation(lineWidth0);
      if k > 2 {
        DepthOfWalls(k - 1);
      } else if k == 2 {
        DepthOfWalls(1);
      }
    }

    /** One round of generation: appends inset `i`, computed from the outline
        (`i == 0`) or from inset `i - 1`, then simplified and stripped of
        degenerate vertices in place. */
    method AppendInset(part: SliceLayerPart, i: nat)
      requires |part.insets| == i
      modifies part`insets
      ensures part.insets == old(part.insets) + [Candidate(i, Source(part.outline, old(part.insets)))]
    {
      ghost var done := part.insets;
      ghost var offset := Offset(Source(part.outline, done), InsetDistance(i), DefaultJoin);
      ghost var shaped := if i == 0 && wavyWalls then MakeHalftoned(layerNr, offset) else offset;
      part.insets := part.insets + [NoPolygons];
      if i == 0 {
        part.insets := part.insets[0 := Offset(part.outline, InsetDistance(0), DefaultJoin)];
        if wavyWalls {
          part.insets := part.insets[0 := MakeHalftoned(layerNr, part.insets[0])];
        }
      } else if i == 1 {
        part.insets := part.insets[1 := Offset(part.insets[0], InsetDistance(1), DefaultJoin)];
      } else {
        part.insets := part.insets[i := Offset(part.insets[i - 1], InsetDistance(i), DefaultJoin)];
      }
      assert part.insets == done + [shaped];
      part.insets := part.insets[i := Simplify(part.insets[i])];
      part.insets := part.insets[i := RemoveDegenerateVerts(part.insets[i])];
    }

    /** Generates the insets and the print outline of one part. The part must
        not have insets yet: they are filled in from index 0. */
    method GeneratePartInsets(part: SliceLayerPart)
      requires part.insets == []
      modifies part`insets, part`printOutline
      ensures part.insets == InsetsFor(part.outline)
      ensures part.printOutline == PrintOutline(part.outline, old(part.printOutline))
    {
      if insetCount == 0 {
        part.insets := part.insets + [part.outline];
        part.printOutline := part.outline;
        return;
      }

      ghost var outline, before := part.outline, part.printOutline;
      var i := 0;
      while i < insetCount
        invariant 0 <= i && (i <= insetCount || i == 0)
        invariant part.outline == outline
        invariant part.insets == InsetChain(outline, i) && |part.insets| == i
        invariant part.printOutline == if i == 0 then before else PrintOutline(outline, before)
      {
        ghost var done := part.insets;
        InsetChainStep(outline, i);
        AppendInset(part, i);
        if i == 0 {
          if recomputeOutlineBasedOnOuterWall {
            part.printOutline := Offset(part.insets[0], Half(lineWidth0), SquareJoin);
          } else {
            part.printOutline := part.outline;
          }
        }
        if part.insets[i].Size() < 1 {
          part.insets := part.insets[..|part.insets| - 1];
          assert part.insets == done;
          InsetChainStops(outline, i + 1, insetCount);
          break;
        }
        i := i + 1;
      }
    }

    /** Generates the insets of every part of the layer, in order, each
        part once; the vector itself is not changed. The index cannot wrap
        because the vector has fewer than 2^32 parts. */
    method GenerateEveryPart(layer: SliceLayer)
      requires |layer.parts| <= UINT_MAX
      requires forall i, j :: 0 <= i < j < |layer.parts| ==> layer.parts[i] != layer.parts[j]
      requires forall i :: 0 <= i < |layer.parts| ==> layer.parts[i].insets == []
      modifies layer.parts
      ensures forall p :: p in layer.parts ==>
        && p.outline == old(p.outline)
        && p.insets == InsetsFor(p.outline)
        && p.printOutline == PrintOutline(p.outline, old(p.printOutline))
    {
      var partNr: UInt32 := 0;
      while partNr < |layer.parts|
        invariant partNr <= |layer.parts|
        invariant forall k :: 0 <= k < partNr ==>
          var p := layer.parts[k];
          && p.outline == old(p.outline)
          && p.insets == InsetsFor(p.outline)
          && p.printOutline == PrintOutline(p.outline, old(p.printOutline))
        invariant forall k :: partNr <= k < |layer.parts| ==>
          var p := layer.parts[k];
          && p.outline == old(p.outline)
          && p.insets == []
          && p.printOutline == old(p.printOutline)
        modifies layer.parts
      {
        GeneratePartInsets(layer.parts[partNr]);
        partNr := partNr + 1;
      }
    }

    /** Removes part `i` from the vector: the last part is moved into slot
        `i` unless `i` is the last slot, then the vector is popped. */
    method SwapRemovePart(layer: SliceLayer, i: nat)
      requires i < |layer.parts|
      modifies layer
      ensures layer.parts == SwapRemove(old(layer.parts), i)
    {
      SwapRemoveInPlace(layer.parts, i);
      var last := |layer.parts| - 1;
      if i != last {
        layer.parts := layer.parts[i := layer.parts[last]];
      }
      layer.parts := layer.parts[..last];
    }

    /** When configured, removes the parts that have no inset, checking the
        same slot again after each removal through an index that may wrap
        below zero. The parts kept are exactly those with insets, each once,
        in an order the removal does not preserve. */
    method RemovePartsWithoutInsets(layer: SliceLayer)
      requires |layer.parts| <= UINT_MAX
      modifies layer
      ensures !removePartsWithNoInsets ==> layer.parts == old(layer.parts)
      ensures removePartsWithNoInsets ==>
        && (forall p :: p in layer.parts <==> p in old(layer.parts) && p.insets != [])
        && multiset(layer.parts) == multiset(Filter(old(layer.parts), WithInsets(old(layer.parts))))
    {
      ghost var generated := layer.parts;
      ghost var kept := WithInsets(generated);
      CompactingStart(generated, kept);
      var partIdx: UInt32 := 0;
      while partIdx < |layer.parts|
        invariant |layer.parts| <= |generated|
        invariant !removePartsWithNoInsets ==> layer.parts == generated && partIdx <= |layer.parts|
        invariant removePartsWithNoInsets ==> Compacting(layer.parts, generated, kept, partIdx)
        decreases |layer.parts| - partIdx
      {
        if |layer.parts[partIdx].insets| == 0 && removePartsWithNoInsets {
          CompactingRemove(layer.parts, generated, kept, partIdx);
          SwapRemovePart(layer, partIdx);
          IncAfterDec(partIdx);
          partIdx := Dec(partIdx);
        } else if removePartsWithNoInsets {
          assert layer.parts[partIdx] in generated;
          CompactingSkip(layer.parts, generated, kept, partIdx);
        }
        partIdx := Inc(partIdx);
      }
      if removePartsWithNoInsets {
        CompactingDone(layer.parts, generated, kept);
      }
    }

    /** Generates the insets of every part of the layer, then (when
        configured) removes the parts left without any inset. */
    method GenerateLayerInsets(layer: SliceLayer)
      requires |layer.parts| <= UINT_MAX
      requires forall i, j :: 0 <= i < j < |layer.parts| ==> layer.parts[i] != layer.parts[j]
      requires forall i :: 0 <= i < |layer.parts| ==> layer.parts[i].insets == []
      modifies layer, layer.parts
      ensures forall p :: p in old(layer.parts) ==>
        && p.outline == old(p.outline)
        && p.insets == InsetsFor(p.outline)
        && p.printOutline == PrintOutline(p.outline, old(p.printOutline))
      ensures !removePartsWithNoInsets ==> layer.parts == old(layer.parts)
      ensures removePartsWithNoInsets ==>
        && (forall p :: p in layer.parts <==> p in old(layer.parts) && p.insets != [])
        && multiset(layer.parts) == multiset(Filter(old(layer.parts), WithInsets(old(layer.parts))))
    {
      GenerateEveryPart(layer);
      RemovePartsWithoutInsets(layer);
    }
  }
}
