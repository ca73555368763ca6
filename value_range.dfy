/** `MemberField.ValueRange`: the clamping interval, created on first use and cached in the
    attribute's Range slot. */
module ValueRanges {
  import opened Descriptors

  /** What ValueRange answers for an attribute: the cached range if there is one, else a new range
      from RangeMin and RangeMax when they differ, else none. */
  function CachedRange(a: ShowInEditor): (r: Option<ShowInEditorRange>)
    ensures a.range.Some? ==> r == a.range
    ensures a.range.None? && a.rangeMin != a.rangeMax ==> r == Some(ShowInEditorRange(a.rangeMin, a.rangeMax))
    ensures r.None? <==> a.range.None? && a.rangeMin == a.rangeMax
  {
    if a.range.None? && a.rangeMin != a.rangeMax then Some(ShowInEditorRange(a.rangeMin, a.rangeMax))
    else a.range
  }

  /** Caching the answer does not change it: asking again gives the same range. */
  lemma {:induction false} CachedRangeIdempotent(a: ShowInEditor)
    ensures CachedRange(a.(range := CachedRange(a))) == CachedRange(a)
  {
  }

  /** The attribute instance a member field holds; ValueRange writes its cache back into it. */
  class AttributeHolder {
    var attribute: ShowInEditor

    constructor (attribute: ShowInEditor)
      ensures this.attribute == attribute
    {
      this.attribute := attribute;
    }

    /** Returns the range and leaves it cached; nothing else in the attribute changes. */
    method ValueRange() returns (r: Option<ShowInEditorRange>)
      modifies this
      ensures r == CachedRange(old(attribute))
      ensures attribute == old(attribute).(range := r)
    {
      if attribute.range.None? && attribute.rangeMin != attribute.rangeMax {
        attribute := attribute.(range := Some(ShowInEditorRange(attribute.rangeMin, attribute.rangeMax)));
      }
      r := attribute.range;
    }
  }

  /** Two reads of ValueRange in a row give the same range. */
  method ValueRangeTwice(h: AttributeHolder) returns (r1: Option<ShowInEditorRange>, r2: Option<ShowInEditorRange>)
    modifies h
    ensures r1 == r2 == CachedRange(old(h.attribute))
  {
    r1 := h.ValueRange();
    r2 := h.ValueRange();
    CachedRangeIdempotent(old(h.attribute));
  }
}
