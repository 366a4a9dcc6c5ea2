/** Where the elements of an aggregate lie. */
module Layout {
  import opened Rounding

  /** An element: the size and alignment of its type, and how many of them in a row. */
  datatype Field = Field(size: nat, align: nat, count: nat)

  datatype Layout = Layout(offsets: seq<nat>, size: nat, align: nat)

  function Extent(f: Field): nat { f.size * f.count }

  /** The largest alignment among the first k fields, at least one. */
  function MaxAlign(fields: seq<Field>, k: nat): (r: nat)
    requires k <= |fields|
    ensures r >= 1
  {
    if k == 0 then 1 else Max(MaxAlign(fields, k - 1), fields[k - 1].align)
  }

  ghost predicate Sizes(fields: seq<Field>) {
    forall k | 0 <= k < |fields| :: fields[k].align > 0 && fields[k].size % fields[k].align == 0
  }

  /** Offsets that are in order, do not overlap and are aligned, in a space that holds them all and whose size is a
      multiple of its alignment. */
  ghost predicate Lays(fields: seq<Field>, offsets: seq<nat>, size: nat, align: nat) {
    && |offsets| == |fields| && align > 0
    && (forall k | 0 <= k < |fields| && fields[k].align > 0 :: offsets[k] % fields[k].align == 0)
    && (forall j, k | 0 <= j < k < |fields| :: offsets[j] + Extent(fields[j]) <= offsets[k])
    && (forall k | 0 <= k < |fields| :: offsets[k] + Extent(fields[k]) <= size)
    && size % align == 0
  }

  /** Where the first k fields end. */
  function End(fields: seq<Field>, k: nat): nat
    requires k <= |fields|
  {
    if k == 0 then 0 else RoundUp(End(fields, k - 1), fields[k - 1].align) + Extent(fields[k - 1])
  }

  function OffsetOf(fields: seq<Field>, k: nat): nat
    requires k < |fields|
  {
    RoundUp(End(fields, k), fields[k].align)
  }

  method CalcAggregateLayout(fields: seq<Field>) returns (l: Layout)
    ensures |l.offsets| == |fields| && forall k | 0 <= k < |fields| :: l.offsets[k] == OffsetOf(fields, k)
    ensures l.align == MaxAlign(fields, |fields|)
    ensures l.size == RoundUp(End(fields, |fields|), l.align)
    ensures Lays(fields, l.offsets, l.size, l.align)
    ensures forall k | 0 <= k < |fields| :: fields[k].align <= l.align
    ensures l.align == 1 || exists k | 0 <= k < |fields| :: fields[k].align == l.align
  {
    var align, offset, offsets := 1, 0, [];
    var i := 0;
    while i < |fields|
      invariant 0 <= i <= |fields| == |offsets| + (|fields| - i)
      invariant align == MaxAlign(fields, i) && offset == End(fields, i)
      invariant forall k | 0 <= k < i :: offsets[k] == OffsetOf(fields, k)
      invariant forall k | 0 <= k < i :: fields[k].align <= align
      invariant align == 1 || exists k | 0 <= k < i :: fields[k].align == align
    {
      align := Max(align, fields[i].align);
      offset := RoundUp(offset, fields[i].align);
      offsets := offsets + [offset];
      offset := offset + fields[i].size * fields[i].count;
      i := i + 1;
    }
    l := Layout(offsets, RoundUp(offset, align), align);
    OffsetsLay(fields, offsets, l.size, align);
  }

  lemma {:induction false} EndGrows(fields: seq<Field>, j: nat, k: nat)
    requires j <= k <= |fields|
    ensures End(fields, j) <= End(fields, k)
    decreases k
  {
    if j < k { EndGrows(fields, j, k - 1); }
  }

  lemma OffsetsLay(fields: seq<Field>, offsets: seq<nat>, size: nat, align: nat)
    requires |offsets| == |fields| && forall k | 0 <= k < |fields| :: offsets[k] == OffsetOf(fields, k)
    requires align > 0 && size == RoundUp(End(fields, |fields|), align)
    ensures Lays(fields, offsets, size, align)
  {
    forall j, k | 0 <= j < k <= |fields|
      ensures offsets[j] + Extent(fields[j]) <= End(fields, k)
    {
      EndGrows(fields, j + 1, k);
    }
    hide Extent, End, RoundUp;
  }

  /** Nothing can be smaller: in any other arrangement in this order every offset and the size are as large. */
  lemma {:induction false} LeastOffsets(fields: seq<Field>, offsets: seq<nat>, size: nat, align: nat, k: nat)
    requires Sizes(fields) && Lays(fields, offsets, size, align) && k < |fields|
    ensures OffsetOf(fields, k) <= offsets[k]
    decreases k
  {
    if k > 0 { LeastOffsets(fields, offsets, size, align, k - 1); }
    RoundUpIsLeast(End(fields, k), fields[k].align, offsets[k]);
  }

  lemma LeastSize(fields: seq<Field>, offsets: seq<nat>, size: nat)
    requires Sizes(fields) && Lays(fields, offsets, size, MaxAlign(fields, |fields|))
    ensures RoundUp(End(fields, |fields|), MaxAlign(fields, |fields|)) <= size
  {
    var n := |fields|;
    var align := MaxAlign(fields, n);
    if n > 0 { LeastOffsets(fields, offsets, size, align, n - 1); }
    RoundUpIsLeast(End(fields, n), align, size);
  }

  // --- Alignment of what lies inside ---

  lemma {:induction false} MaxAlignPower(fields: seq<Field>, k: nat)
    requires k <= |fields| && forall j | 0 <= j < k :: PowerOfTwo(fields[j].align)
    ensures PowerOfTwo(MaxAlign(fields, k))
    ensures forall j | 0 <= j < k :: fields[j].align <= MaxAlign(fields, k)
    decreases k
  {
    if k > 0 { MaxAlignPower(fields, k - 1); }
  }

  /** At any address aligned for the aggregate, every single element of every field is aligned for its type. */
  lemma ElementsAligned(fields: seq<Field>, base: nat, k: nat, i: nat)
    requires Sizes(fields) && (forall j | 0 <= j < |fields| :: PowerOfTwo(fields[j].align))
    requires base % MaxAlign(fields, |fields|) == 0 && k < |fields| && i < fields[k].count
    ensures (base + OffsetOf(fields, k) + i * fields[k].size) % fields[k].align == 0
  {
    var a := fields[k].align;
    MaxAlignPower(fields, |fields|);
    PowersDivide(a, MaxAlign(fields, |fields|));
    Divides(base, MaxAlign(fields, |fields|), a);
    MulDivides(i, fields[k].size, a);
    SumDivides(base, OffsetOf(fields, k), a);
    SumDivides(base + OffsetOf(fields, k), i * fields[k].size, a);
  }
}
