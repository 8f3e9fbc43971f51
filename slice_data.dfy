/** The slice data that wall generation reads and updates: a layer is a
    vector of parts, and each part carries its outline, its insets (walls) and
    the outline later stages use to bound infill. */
module SliceData {
  import opened Geometry

  /** One connected region of a layer (`SliceLayerPart`). */
  class SliceLayerPart {
    /** The region's slice outline; wall generation only reads it. */
    var outline: Polygons
    /** The walls, outermost first. */
    var insets: seq<Polygons>
    /** The outline that bounds the infill of this region. */
    var printOutline: Polygons

    constructor (outline: Polygons)
      ensures this.outline == outline && insets == [] && printOutline == NoPolygons
    {
      this.outline := outline;
      insets := [];
      printOutline := NoPolygons;
    }
  }

  /** One layer (`SliceLayer`); `parts` is its vector of parts. */
  class SliceLayer {
    var parts: seq<SliceLayerPart>

    constructor (parts: seq<SliceLayerPart>)
      ensures this.parts == parts
    {
      this.parts := parts;
    }
  }

  /** The parts of `ps` that currently have at least one inset. */
  ghost function WithInsets(ps: seq<SliceLayerPart>): set<SliceLayerPart>
    reads ps
  {
    set p | p in ps && p.insets != []
  }

  /** The elements of `s` that belong to `keep`, in order. */
  function Filter<T>(s: seq<T>, keep: set<T>): (r: seq<T>)
    ensures |r| <= |s|
    ensures (forall i :: 0 <= i < |s| ==> s[i] in keep) ==> r == s
  {
    if s == [] then []
    else if s[0] in keep then [s[0]] + Filter(s[1..], keep)
    else Filter(s[1..], keep)
  }

  /** The filter keeps exactly the elements that belong to `keep`. */
  lemma {:induction false} FilterMembers<T>(s: seq<T>, keep: set<T>)
    ensures forall x :: x in Filter(s, keep) <==> x in s && x in keep
  {
    if s != [] {
      FilterMembers(s[1..], keep);
      assert forall x :: x in s <==> x == s[0] || x in s[1..];
    }
  }

  /** Filtering commutes with concatenation. */
  lemma {:induction false} FilterConcat<T>(a: seq<T>, b: seq<T>, keep: set<T>)
    ensures Filter(a + b, keep) == Filter(a, keep) + Filter(b, keep)
  {
    if a == [] {
      assert a + b == b;
    } else {
      assert (a + b)[0] == a[0] && (a + b)[1..] == a[1..] + b;
      FilterConcat(a[1..], b, keep);
    }
  }

  /** The vector's swap-remove of element `i`: the last element is moved into
      slot `i` (unless `i` is the last slot), then the last slot is popped. */
  function SwapRemove<T>(s: seq<T>, i: nat): (r: seq<T>)
    requires i < |s|
    ensures |r| == |s| - 1
    ensures r[..i] == s[..i]
    ensures forall k :: i < k < |r| ==> r[k] == s[k]
    ensures i < |r| ==> r[i] == s[|s| - 1]
    ensures multiset(r) + multiset{s[i]} == multiset(s)
  {
    var last := |s| - 1;
    if i == last then
      assert s == s[..last] + [s[last]];
      s[..last]
    else
      var front, back := s[..i], s[i + 1..last];
      assert s == front + [s[i]] + back + [s[last]];
      assert (front + [s[last]] + back)[..i] == front;
      front + [s[last]] + back
  }

  /** The swap-remove as the vector performs it: assign the last element
      to slot `i` when `i` is not the last slot, then pop. */
  lemma SwapRemoveInPlace<T>(s: seq<T>, i: nat)
    requires i < |s|
    ensures var last := |s| - 1;
      SwapRemove(s, i) == (if i != last then s[i := s[last]] else s)[..last]
  {
    var last := |s| - 1;
    if i != last {
      assert s[i := s[last]][..last] == s[..i] + [s[last]] + s[i + 1..last];
    }
  }

  /** Swap-removing an element that is not kept leaves the kept elements the
      same, up to order. */
  lemma FilterSwapRemove<T>(s: seq<T>, i: nat, keep: set<T>)
    requires i < |s| && s[i] !in keep
    ensures multiset(Filter(SwapRemove(s, i), keep)) == multiset(Filter(s, keep))
    ensures forall x :: x in SwapRemove(s, i) ==> x in s
  {
    assert forall x :: x in SwapRemove(s, i) ==> x in multiset(SwapRemove(s, i));
    if i == |s| - 1 {
      FilterPopLast(s, keep);
    } else {
      FilterMoveLast(s, i, keep);
    }
  }

  /** Popping a last element that is not kept changes nothing kept. */
  lemma FilterPopLast<T>(s: seq<T>, keep: set<T>)
    requires |s| > 0 && s[|s| - 1] !in keep
    ensures Filter(SwapRemove(s, |s| - 1), keep) == Filter(s, keep)
  {
    var last := |s| - 1;
    var kept := s[..last];
    assert SwapRemove(s, last) == kept;
    assert s == kept + [s[last]];
    FilterConcat(kept, [s[last]], keep);
    assert Filter([s[last]], keep) == [];
  }

  /** Moving the last element into the slot of an element that is not kept,
      then popping, keeps the same elements up to order. */
  lemma FilterMoveLast<T>(s: seq<T>, i: nat, keep: set<T>)
    requires i < |s| - 1 && s[i] !in keep
    ensures multiset(Filter(SwapRemove(s, i), keep)) == multiset(Filter(s, keep))
  {
    var before, mid, moved := s[..i], s[i + 1..|s| - 1], s[|s| - 1];
    SwapRemoveSplit(s, i);
    FilterDrop(before, s[i], mid + [moved], keep);
    FilterConcat(before, [moved] + mid, keep);
    FilterRotate(mid, moved, keep);
    var fb, f1, f2 := Filter(before, keep), Filter(mid + [moved], keep), Filter([moved] + mid, keep);
    assert multiset(fb + f1) == multiset(fb) + multiset(f1);
    assert multiset(fb + f2) == multiset(fb) + multiset(f2);
  }

  /** An element that is not kept disappears from the filtered sequence. */
  lemma FilterDrop<T>(a: seq<T>, x: T, b: seq<T>, keep: set<T>)
    requires x !in keep
    ensures Filter(a + [x] + b, keep) == Filter(a, keep) + Filter(b, keep)
  {
    var ax := a + [x];
    FilterConcat(ax, b, keep);
    FilterConcat(a, [x], keep);
    assert [x][1..] == [];
    assert Filter([x], keep) == [];
    assert Filter(a, keep) + [] == Filter(a, keep);
  }

  /** Moving one element from the back to the front does not change what is
      kept, up to order. */
  lemma FilterRotate<T>(a: seq<T>, x: T, keep: set<T>)
    ensures multiset(Filter(a + [x], keep)) == multiset(Filter([x] + a, keep))
  {
    FilterConcat(a, [x], keep);
    FilterConcat([x], a, keep);
    var fa, fx := Filter(a, keep), Filter([x], keep);
    assert multiset(fa + fx) == multiset(fa) + multiset(fx);
    assert multiset(fx + fa) == multiset(fx) + multiset(fa);
  }

  /** How a swap-remove of a slot other than the last rearranges the
      vector. */
  lemma SwapRemoveSplit<T>(s: seq<T>, i: nat)
    requires i < |s| - 1
    ensures s == s[..i] + [s[i]] + (s[i + 1..|s| - 1] + [s[|s| - 1]])
    ensures SwapRemove(s, i) == s[..i] + ([s[|s| - 1]] + s[i + 1..|s| - 1])
  {
    var last := |s| - 1;
    assert s[i := s[last]][..last] == s[..i] + ([s[last]] + s[i + 1..last]);
  }

  /** The state of a swap-remove compaction of `orig` that keeps the elements
      of `keep`, once the slots before `i` have been checked: everything left
      comes from `orig`, the checked slots hold kept elements, and up to order
      the kept elements are still all there. */
  ghost predicate Compacting<T>(cur: seq<T>, orig: seq<T>, keep: set<T>, i: nat)
  {
    && i <= |cur| <= |orig|
    && (forall x :: x in cur ==> x in orig)
    && (forall k :: 0 <= k < i ==> cur[k] in keep)
    && multiset(Filter(cur, keep)) == multiset(Filter(orig, keep))
  }

  /** Nothing has been checked or removed at the start. */
  lemma CompactingStart<T>(orig: seq<T>, keep: set<T>)
    ensures Compacting(orig, orig, keep, 0)
  {
  }

  /** Checking a slot that holds a kept element moves on to the next slot. */
  lemma CompactingSkip<T>(cur: seq<T>, orig: seq<T>, keep: set<T>, i: nat)
    requires Compacting(cur, orig, keep, i) && i < |cur| && cur[i] in keep
    ensures Compacting(cur, orig, keep, i + 1)
  {
  }

  /** Swap-removing an element that is not kept stays at the same slot, which
      now holds the element moved from the back. */
  lemma CompactingRemove<T>(cur: seq<T>, orig: seq<T>, keep: set<T>, i: nat)
    requires Compacting(cur, orig, keep, i) && i < |cur| && cur[i] !in keep
    ensures Compacting(SwapRemove(cur, i), orig, keep, i)
    ensures |SwapRemove(cur, i)| < |cur|
  {
    FilterSwapRemove(cur, i, keep);
  }

  /** Once every slot is checked, what is left is exactly the kept elements
      of the original, each as often as it occurred there, in some order. */
  lemma CompactingDone<T>(cur: seq<T>, orig: seq<T>, keep: set<T>)
    requires Compacting(cur, orig, keep, |cur|)
    ensures multiset(cur) == multiset(Filter(orig, keep))
    ensures forall x :: x in cur <==> x in orig && x in keep
  {
    assert Filter(cur, keep) == cur;
    FilterMembers(orig, keep);
    forall x ensures x in cur <==> x in orig && x in keep {
      assert x in cur <==> x in multiset(cur);
      assert x in Filter(orig, keep) <==> x in multiset(Filter(orig, keep));
    }
  }
}
