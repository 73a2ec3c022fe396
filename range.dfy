/** Range<Type> (ICLCore/src/iclRange.h) over integers: a closed interval
    given by its two end values, which the struct does not order. */
module Ranges {
  import opened Sequences

  datatype Range = Range(minVal: int, maxVal: int)

  /** The default constructor: the empty-looking range min = max = 0, which
      in fact holds the single value 0. */
  function DefaultRange(): (r: Range)
    ensures r.minVal == 0 && r.maxVal == 0
    ensures GetLength(r) == 0
  {
    Range(0, 0)
  }

  /** A range whose ends coincide, such as the default one, holds that end
      value and nothing else. */
  lemma DegenerateRangeHoldsOneValue(r: Range, v: int)
    requires r.minVal == r.maxVal
    ensures In(r, v) <==> v == r.minVal
  {
  }

  /** getLength(): max - min, negative when the ends are inverted. */
  function GetLength(r: Range): (len: int)
    ensures r.minVal + len == r.maxVal
    ensures len >= 0 <==> r.minVal <= r.maxVal
  {
    r.maxVal - r.minVal
  }

  /** in(value): both ends are inclusive, so a value lies in the range
      exactly when its offset from the lower end is between 0 and the
      length. */
  predicate In(r: Range, v: int): (b: bool)
    ensures b <==> 0 <= v - r.minVal <= GetLength(r)
  {
    v >= r.minVal && v <= r.maxVal
  }

  /** An ordered range holds both its ends; an inverted one holds nothing. */
  lemma EndsAreInside(r: Range)
    ensures r.minVal <= r.maxVal ==> In(r, r.minVal) && In(r, r.maxVal)
    ensures r.minVal > r.maxVal ==> forall v :: !In(r, v)
  {
  }

  /** The values of an ordered range are min, min+1, ..., max: there are
      getLength() + 1 of them. */
  lemma {:induction false} MemberCount(r: Range)
    requires r.minVal <= r.maxVal
    ensures forall v :: In(r, v) <==> v in Span(r.minVal, r.maxVal + 1)
    ensures var s := Span(r.minVal, r.maxVal + 1); |set v | v in s| == GetLength(r) + 1
  {
    var s := Span(r.minVal, r.maxVal + 1);
    forall v | In(r, v) ensures v in s {
      assert s[v - r.minVal] == v;
    }
    DistinctCard(s);
  }
}
