/** Widening an ancestor's span to cover a descendant's, keeping the ancestor's
    orientation (`_adjustParent`). */
module SpanMerge {
  import opened Annotations

  /** A child that can be merged: it lies on a contig and has both bounds. */
  predicate Mergeable(c: Annotation) {
    c.contigId.Id? && c.beginPos.At? && c.endPos.At?
  }

  /** Both bounds set. */
  predicate Spanned(a: Annotation) {
    a.beginPos.At? && a.endPos.At?
  }

  /** Neither bound set. */
  predicate Unplaced(a: Annotation) {
    a.beginPos.NoPos? && a.endPos.NoPos?
  }

  function Min(x: int, y: int): int { if x <= y then x else y }
  function Max(x: int, y: int): int { if x <= y then y else x }

  /** The lower and upper end of a span, whatever its orientation. */
  function Lo(a: Annotation): int requires Spanned(a) { Min(a.beginPos.p, a.endPos.p) }
  function Hi(a: Annotation): int requires Spanned(a) { Max(a.beginPos.p, a.endPos.p) }

  /** The forward orientation class `beginPos < endPos`; its complement is the
      reverse class `beginPos >= endPos`. */
  predicate Forward(a: Annotation) requires Spanned(a) { a.beginPos.p < a.endPos.p }

  /** Merges `child`'s span into `parent`.
      - A child without a contig or without both bounds changes nothing.
      - Otherwise the parent takes the child's contig, and
        - a parent without any bound takes the child's bounds as they are,
        - a parent with exactly one bound keeps its bounds,
        - a parent with both bounds becomes the smallest span covering its own
          span and the child's, in its own orientation class. */
  function AdjustParent(parent: Annotation, child: Annotation): (r: Annotation)
    ensures r == parent.(contigId := r.contigId, beginPos := r.beginPos, endPos := r.endPos)
    ensures !Mergeable(child) ==> r == parent
    ensures Mergeable(child) ==> r.contigId == child.contigId
    ensures Mergeable(child) && Unplaced(parent) ==>
              r.beginPos == child.beginPos && r.endPos == child.endPos
    ensures Mergeable(child) && !Unplaced(parent) && !Spanned(parent) ==>
              r.beginPos == parent.beginPos && r.endPos == parent.endPos
    ensures Mergeable(child) && Spanned(parent) ==>
              && Spanned(r)
              && Lo(r) == Min(Lo(parent), Lo(child))
              && Hi(r) == Max(Hi(parent), Hi(child))
              && (Forward(r) <==> Forward(parent))
  {
    if !Mergeable(child) then parent
    else
      var p := parent.(contigId := child.contigId);
      if p.beginPos.NoPos? && p.endPos.NoPos? then
        p.(beginPos := child.beginPos, endPos := child.endPos)
      else if p.beginPos.NoPos? || p.endPos.NoPos? then
        p
      else
        var (childBegin, childEnd) :=
          if child.beginPos.p < child.endPos.p then (child.beginPos.p, child.endPos.p)
          else (child.endPos.p, child.beginPos.p);
        if p.beginPos.p < p.endPos.p then
          var b := if p.beginPos.NoPos? || p.beginPos.p > childBegin then At(childBegin) else p.beginPos;
          var e := if p.endPos.NoPos? || p.endPos.p < childEnd then At(childEnd) else p.endPos;
          p.(beginPos := b, endPos := e)
        else
          var e := if p.endPos.NoPos? || p.endPos.p > childBegin then At(childBegin) else p.endPos;
          var b := if p.beginPos.NoPos? || p.beginPos.p < childEnd then At(childEnd) else p.beginPos;
          p.(beginPos := b, endPos := e)
  }

  /** After a merge into a spanned parent, the parent covers its old span and the
      child's. */
  lemma AdjustParentCovers(parent: Annotation, child: Annotation)
    requires Mergeable(child) && Spanned(parent)
    ensures var r := AdjustParent(parent, child);
            && Lo(r) <= Lo(parent) && Hi(parent) <= Hi(r)
            && Lo(r) <= Lo(child) && Hi(child) <= Hi(r)
  {
  }

  /** Any interval covering both the parent's old span and the child's covers the
      merged span: the merge widens no more than it must. */
  lemma AdjustParentSmallest(parent: Annotation, child: Annotation, lo: int, hi: int)
    requires Mergeable(child) && Spanned(parent)
    requires lo <= Lo(parent) && Hi(parent) <= hi && lo <= Lo(child) && Hi(child) <= hi
    ensures var r := AdjustParent(parent, child);
            lo <= Lo(r) && Hi(r) <= hi
  {
  }

  /** Merging the same child twice is merging it once. */
  lemma AdjustParentIdempotent(parent: Annotation, child: Annotation)
    ensures AdjustParent(AdjustParent(parent, child), child) == AdjustParent(parent, child)
  {
  }

  /** Once a parent has a span, the span it ends up with does not depend on the
      order in which two children are merged into it. */
  lemma AdjustParentOrderIndependent(parent: Annotation, c1: Annotation, c2: Annotation)
    requires Spanned(parent)
    ensures var r12 := AdjustParent(AdjustParent(parent, c1), c2);
            var r21 := AdjustParent(AdjustParent(parent, c2), c1);
            r12.beginPos == r21.beginPos && r12.endPos == r21.endPos
  {
  }
}
