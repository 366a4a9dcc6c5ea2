/** Types made once: every constructor looks for an equal type by the bytes that describe it. */
module Types {
  import opened Rounding
  import opened Layout

  type Byte = x: nat | x < 256

  const U32: nat := 0x1_0000_0000
  const U64: nat := 0x1_0000_0000_0000_0000

  /** Numeric value types; the low four bits are the size. */
  const NUMERICS: set<nat> := {0x01, 0x11, 0x22, 0x32, 0x44, 0x54, 0x68, 0x78, 0x84, 0x98}

  datatype IrType = IrType(id: nat, size: nat, align: nat, desc: Desc)

  datatype Desc =
    | Aggregate(elems: seq<Elem>)
    | Numeric(vt: nat)
    | Pointer
    | Procedure(args: seq<IrType>, ret: IrType, callConv: nat, flags: nat)

  datatype Elem = Elem(ty: IrType, count: nat, offset: nat)

  /** What a constructor is asked for: everything but where elements lie. */
  datatype Want =
    | WantAggregate(elems: seq<(IrType, nat)>)
    | WantNumeric(vt: nat)
    | WantPointer
    | WantProcedure(args: seq<IrType>, ret: IrType, callConv: nat, flags: nat)

  function Bare(elems: seq<Elem>): (r: seq<(IrType, nat)>)
    ensures |r| == |elems|
  {
    seq(|elems|, k requires 0 <= k < |elems| => (elems[k].ty, elems[k].count))
  }

  function Wanted(d: Desc): Want {
    match d
    case Aggregate(elems) => WantAggregate(Bare(elems))
    case Numeric(vt) => WantNumeric(vt)
    case Pointer => WantPointer
    case Procedure(args, ret, cc, flags) => WantProcedure(args, ret, cc, flags)
  }

  // --- Bytes ---

  /** A value's n bytes, low byte first. */
  function Bytes(v: nat, n: nat): (r: seq<Byte>)
    ensures |r| == n
  {
    if n == 0 then [] else [v % 256] + Bytes(v / 256, n - 1)
  }

  function Bound(n: nat): nat { if n == 0 then 1 else 256 * Bound(n - 1) }

  lemma {:induction false} BytesInjective(v: nat, w: nat, n: nat)
    requires v < Bound(n) && w < Bound(n) && Bytes(v, n) == Bytes(w, n)
    ensures v == w
  {
    if n > 0 {
      assert Bytes(v, n)[0] == Bytes(w, n)[0];
      assert Bytes(v, n)[1..] == Bytes(w, n)[1..];
      BytesInjective(v / 256, w / 256, n - 1);
    }
  }

  lemma Bounds()
    ensures Bound(1) == 256 && Bound(4) == U32 && Bound(8) == U64
  {
    assert Bound(1) == 256 * Bound(0);
    assert Bound(2) == 256 * Bound(1);
    assert Bound(3) == 256 * Bound(2);
    assert Bound(4) == 256 * Bound(3);
    assert Bound(5) == 256 * Bound(4);
    assert Bound(6) == 256 * Bound(5);
    assert Bound(7) == 256 * Bound(6);
    assert Bound(8) == 256 * Bound(7);
  }

  function KindOf(w: Want): nat {
    match w
    case WantAggregate(_) => 0
    case WantNumeric(_) => 1
    case WantPointer => 2
    case WantProcedure(_, _, _, _) => 3
  }

  function ElemBytes(elems: seq<(IrType, nat)>): (r: seq<Byte>)
    ensures |r| == 12 * |elems|
  {
    if elems == [] then [] else
    var last := elems[|elems| - 1];
    ElemBytes(elems[..|elems| - 1]) + Bytes(last.0.id, 4) + Bytes(last.1, 8)
  }

  function ArgBytes(args: seq<IrType>): (r: seq<Byte>)
    ensures |r| == 4 * |args|
  {
    if args == [] then [] else ArgBytes(args[..|args| - 1]) + Bytes(args[|args| - 1].id, 4)
  }

  /** The fingerprint of a type: its kind, then what tells types of that kind apart. */
  function Fp(w: Want): seq<Byte> {
    Bytes(KindOf(w), 4) +
    match w
    case WantAggregate(elems) => Bytes(|elems|, 8) + ElemBytes(elems)
    case WantNumeric(vt) => Bytes(vt, 4)
    case WantPointer => []
    case WantProcedure(args, ret, cc, flags) => ArgBytes(args) + Bytes(ret.id, 4) + Bytes(cc, 4) + Bytes(flags, 1)
  }

  /** What the source's integer widths allow. */
  ghost predicate InRange(w: Want) {
    match w
    case WantAggregate(elems) => |elems| < U64 && forall k | 0 <= k < |elems| :: elems[k].0.id < U32 && elems[k].1 < U64
    case WantNumeric(vt) => vt in NUMERICS
    case WantPointer => true
    case WantProcedure(args, ret, cc, flags) =>
      (forall k | 0 <= k < |args| :: args[k].id < U32) && ret.id < U32 && cc < U32 && flags < 256
  }

  lemma Halves<T>(a: seq<T>, b: seq<T>, c: seq<T>, d: seq<T>)
    requires a + b == c + d && (|a| == |c| || |b| == |d|)
    ensures a == c && b == d
  {
    assert |a| == |c|;
    assert (a + b)[..|a|] == a && (c + d)[..|c|] == c;
    assert (a + b)[|a|..] == b && (c + d)[|c|..] == d;
  }

  lemma {:induction false} ElemBytesInjective(xs: seq<(IrType, nat)>, ys: seq<(IrType, nat)>)
    requires ElemBytes(xs) == ElemBytes(ys)
    requires forall k | 0 <= k < |xs| :: xs[k].0.id < U32 && xs[k].1 < U64
    requires forall k | 0 <= k < |ys| :: ys[k].0.id < U32 && ys[k].1 < U64
    ensures |xs| == |ys| && forall k | 0 <= k < |xs| :: xs[k].0.id == ys[k].0.id && xs[k].1 == ys[k].1
    decreases |xs|
  {
    if xs != [] && ys != [] {
      var x, y := xs[|xs| - 1], ys[|ys| - 1];
      var xi, yi := xs[..|xs| - 1], ys[..|ys| - 1];
      Halves(ElemBytes(xi) + Bytes(x.0.id, 4), Bytes(x.1, 8), ElemBytes(yi) + Bytes(y.0.id, 4), Bytes(y.1, 8));
      Halves(ElemBytes(xi), Bytes(x.0.id, 4), ElemBytes(yi), Bytes(y.0.id, 4));
      Bounds();
      BytesInjective(x.0.id, y.0.id, 4);
      BytesInjective(x.1, y.1, 8);
      ElemBytesInjective(xi, yi);
    }
  }

  lemma {:induction false} ArgBytesInjective(xs: seq<IrType>, ys: seq<IrType>)
    requires ArgBytes(xs) == ArgBytes(ys)
    requires forall k | 0 <= k < |xs| :: xs[k].id < U32
    requires forall k | 0 <= k < |ys| :: ys[k].id < U32
    ensures |xs| == |ys| && forall k | 0 <= k < |xs| :: xs[k].id == ys[k].id
    decreases |xs|
  {
    if xs != [] && ys != [] {
      var x, y := xs[|xs| - 1], ys[|ys| - 1];
      Halves(ArgBytes(xs[..|xs| - 1]), Bytes(x.id, 4), ArgBytes(ys[..|ys| - 1]), Bytes(y.id, 4));
      Bounds();
      BytesInjective(x.id, y.id, 4);
      ArgBytesInjective(xs[..|xs| - 1], ys[..|ys| - 1]);
    }
  }

  /** Alike but for identity of the types mentioned, of which only the ids are compared. */
  ghost predicate SameIds(v: Want, w: Want) {
    match v
    case WantAggregate(xs) =>
      w.WantAggregate? && |xs| == |w.elems| && forall k | 0 <= k < |xs| :: xs[k].0.id == w.elems[k].0.id && xs[k].1 == w.elems[k].1
    case WantNumeric(vt) => v == w
    case WantPointer => v == w
    case WantProcedure(xs, ret, cc, flags) =>
      w.WantProcedure? && |xs| == |w.args| && (forall k | 0 <= k < |xs| :: xs[k].id == w.args[k].id) &&
      ret.id == w.ret.id && cc == w.callConv && flags == w.flags
  }

  /** Fingerprints are injective: equal bytes, equal requests up to the ids of the types in them. */
  lemma FpInjective(v: Want, w: Want)
    requires InRange(v) && InRange(w) && Fp(v) == Fp(w)
    ensures SameIds(v, w)
  {
    Bounds();
    Halves(Bytes(KindOf(v), 4), Fp(v)[4..], Bytes(KindOf(w), 4), Fp(w)[4..]);
    BytesInjective(KindOf(v), KindOf(w), 4);
    var p, q := Fp(v)[4..], Fp(w)[4..];
    match v
    case WantAggregate(xs) =>
      Halves(Bytes(|xs|, 8), ElemBytes(xs), Bytes(|w.elems|, 8), ElemBytes(w.elems));
      ElemBytesInjective(xs, w.elems);
    case WantNumeric(vt) =>
      BytesInjective(vt, w.vt, 4);
    case WantPointer =>
    case WantProcedure(xs, ret, cc, flags) =>
      Halves(ArgBytes(xs) + Bytes(ret.id, 4) + Bytes(cc, 4), Bytes(flags, 1),
             ArgBytes(w.args) + Bytes(w.ret.id, 4) + Bytes(w.callConv, 4), Bytes(w.flags, 1));
      Halves(ArgBytes(xs) + Bytes(ret.id, 4), Bytes(cc, 4), ArgBytes(w.args) + Bytes(w.ret.id, 4), Bytes(w.callConv, 4));
      Halves(ArgBytes(xs), Bytes(ret.id, 4), ArgBytes(w.args), Bytes(w.ret.id, 4));
      BytesInjective(flags, w.flags, 1);
      BytesInjective(cc, w.callConv, 4);
      BytesInjective(ret.id, w.ret.id, 4);
      ArgBytesInjective(xs, w.args);
  }

  // --- Sizes ---

  function Fields(elems: seq<(IrType, nat)>): (r: seq<Field>)
    ensures |r| == |elems|
  {
    seq(|elems|, k requires 0 <= k < |elems| => Field(elems[k].0.size, elems[k].0.align, elems[k].1))
  }

  /** Size, alignment and offsets are what the description calls for, however the type was made. */
  ghost predicate Measured(t: IrType, ptrSize: nat) {
    match t.desc
    case Numeric(vt) => t.size == vt % 16 == t.align
    case Pointer => t.size == ptrSize == t.align
    case Procedure(_, _, _, _) => t.size == ptrSize == t.align
    case Aggregate(elems) =>
      var fields := Fields(Bare(elems));
      && (forall k | 0 <= k < |elems| :: elems[k].offset == OffsetOf(fields, k))
      && t.align == MaxAlign(fields, |fields|) && t.size == RoundUp(End(fields, |fields|), t.align)
  }

  predicate Sized(t: IrType) { 0 < t.align < 256 && t.size % t.align == 0 }

  ghost predicate ChildrenIn(w: Want, S: set<IrType>) {
    match w
    case WantAggregate(elems) => forall k | 0 <= k < |elems| :: elems[k].0 in S
    case WantProcedure(args, ret, _, _) => (forall k | 0 <= k < |args| :: args[k] in S) && ret in S
    case _ => true
  }

  type Table = map<seq<Byte>, IrType>

  /** A table entry: filed under its own fingerprint, made of types in the table, of the right size. */
  ghost predicate EntryOk(table: Table, fp: seq<Byte>, nextId: nat, ptrSize: nat)
    requires fp in table
  {
    var t := table[fp];
    var w := Wanted(t.desc);
    && InRange(w) && fp == Fp(w) && ChildrenIn(w, table.Values)
    && t.id < nextId && Measured(t, ptrSize) && Sized(t)
  }

  ghost predicate TableOk(table: Table, nextId: nat, ptrSize: nat) {
    && nextId <= U32 && 0 < ptrSize < 256
    && (forall fp | fp in table :: EntryOk(table, fp, nextId, ptrSize))
    && (forall f, g | f in table && g in table && table[f].id == table[g].id :: f == g)
  }

  /** Two types are the same exactly when they were asked for alike, and exactly when their ids agree. */
  lemma Exact(table: Table, nextId: nat, ptrSize: nat, s: IrType, t: IrType)
    requires TableOk(table, nextId, ptrSize) && s in table.Values && t in table.Values
    ensures s == t <==> Wanted(s.desc) == Wanted(t.desc)
    ensures s == t <==> s.id == t.id
  {
    var f :| f in table && table[f] == s;
    var g :| g in table && table[g] == t;
    assert EntryOk(table, f, nextId, ptrSize) && EntryOk(table, g, nextId, ptrSize);
  }

  lemma InTable(table: Table, nextId: nat, ptrSize: nat, t: IrType)
    requires TableOk(table, nextId, ptrSize) && t in table.Values
    ensures t.id < U32 && Sized(t) && Measured(t, ptrSize) && ChildrenIn(Wanted(t.desc), table.Values)
    ensures Fp(Wanted(t.desc)) in table && table[Fp(Wanted(t.desc))] == t
  {
    var f :| f in table && table[f] == t;
    assert EntryOk(table, f, nextId, ptrSize);
  }

  /** Requests that agree on ids agree. */
  lemma SameIdsSame(table: Table, nextId: nat, ptrSize: nat, v: Want, w: Want)
    requires TableOk(table, nextId, ptrSize) && ChildrenIn(v, table.Values) && ChildrenIn(w, table.Values) && SameIds(v, w)
    ensures v == w
  {
    match v
    case WantAggregate(xs) =>
      forall k | 0 <= k < |xs| ensures xs[k] == w.elems[k] { Exact(table, nextId, ptrSize, xs[k].0, w.elems[k].0); }
      assert xs == w.elems;
    case WantNumeric(_) =>
    case WantPointer =>
    case WantProcedure(xs, ret, _, _) =>
      forall k | 0 <= k < |xs| ensures xs[k] == w.args[k] { Exact(table, nextId, ptrSize, xs[k], w.args[k]); }
      assert xs == w.args;
      Exact(table, nextId, ptrSize, ret, w.ret);
  }

  /** What is filed under a request's fingerprint is what was requested. */
  lemma FoundIsWanted(table: Table, nextId: nat, ptrSize: nat, w: Want)
    requires TableOk(table, nextId, ptrSize) && InRange(w) && ChildrenIn(w, table.Values) && Fp(w) in table
    ensures Wanted(table[Fp(w)].desc) == w
  {
    var t := table[Fp(w)];
    assert EntryOk(table, Fp(w), nextId, ptrSize);
    FpInjective(Wanted(t.desc), w);
    SameIdsSame(table, nextId, ptrSize, Wanted(t.desc), w);
  }

  lemma MoreChildren(w: Want, S: set<IrType>, T: set<IrType>)
    requires ChildrenIn(w, S) && S <= T
    ensures ChildrenIn(w, T)
  {}

  lemma FiledOk(table: Table, nextId: nat, ptrSize: nat, w: Want, t: IrType)
    requires TableOk(table, nextId, ptrSize) && InRange(w) && ChildrenIn(w, table.Values) && Fp(w) !in table
    requires t.id == nextId < U32 && Wanted(t.desc) == w && Measured(t, ptrSize) && Sized(t)
    ensures TableOk(table[Fp(w) := t], nextId + 1, ptrSize) && Made(table, table[Fp(w) := t], w, t)
  {
    var table' := table[Fp(w) := t];
    assert table'[Fp(w)] == t;
    forall x | x in table.Values ensures x in table'.Values {
      var f :| f in table && table[f] == x;
      assert table'[f] == x;
    }
    forall f | f in table' ensures EntryOk(table', f, nextId + 1, ptrSize) {
      if f == Fp(w) {
        MoreChildren(w, table.Values, table'.Values);
      } else {
        assert EntryOk(table, f, nextId, ptrSize);
        MoreChildren(Wanted(table[f].desc), table.Values, table'.Values);
      }
    }
    forall f, g | f in table' && g in table' && table'[f].id == table'[g].id ensures f == g {
      if f != Fp(w) { assert EntryOk(table, f, nextId, ptrSize); }
      if g != Fp(w) { assert EntryOk(table, g, nextId, ptrSize); }
    }
  }

  // --- The constructors ---

  class TypeTable {
    const ptrSize: nat
    var fpmap: Table
    var nextId: nat

    constructor (ptrSize: nat)
      requires 0 < ptrSize < 256
      ensures Valid() && this.ptrSize == ptrSize && fpmap == map[]
    {
      this.ptrSize, fpmap, nextId := ptrSize, map[], 1;
    }

    ghost predicate Valid()
      reads this
    {
      TableOk(fpmap, nextId, ptrSize)
    }

    /** File a type that is not in the table yet. */
    method File(fp: seq<Byte>, size: nat, align: nat, desc: Desc) returns (t: IrType)
      requires Valid() && nextId < U32 && fp == Fp(Wanted(desc)) && fp !in fpmap
      requires InRange(Wanted(desc)) && ChildrenIn(Wanted(desc), fpmap.Values)
      requires Measured(IrType(nextId, size, align, desc), ptrSize) && Sized(IrType(nextId, size, align, desc))
      modifies this
      ensures Valid() && Made(old(fpmap), fpmap, Wanted(desc), t)
    {
      hide TableOk, Made, Measured, Sized, InRange, ChildrenIn, Fp, Wanted;
      t := IrType(nextId, size, align, desc);
      FiledOk(fpmap, nextId, ptrSize, Wanted(desc), t);
      fpmap := fpmap[fp := t];
      nextId := nextId + 1;
    }

    method MakeNumericType(vt: nat) returns (t: IrType)
      requires Valid() && nextId < U32 && vt in NUMERICS
      modifies this
      ensures Valid() && Made(old(fpmap), fpmap, WantNumeric(vt), t)
    {
      var fp := Bytes(1, 4) + Bytes(vt, 4);
      assert fp == Fp(WantNumeric(vt));
      if fp in fpmap {
        FoundIsWanted(fpmap, nextId, ptrSize, WantNumeric(vt));
        return fpmap[fp];
      }
      t := File(fp, vt % 16, vt % 16, Numeric(vt));
    }

    method MakePointerType() returns (t: IrType)
      requires Valid() && nextId < U32
      modifies this
      ensures Valid() && Made(old(fpmap), fpmap, WantPointer, t)
    {
      var fp := Bytes(2, 4);
      assert fp == Fp(WantPointer);
      if fp in fpmap {
        FoundIsWanted(fpmap, nextId, ptrSize, WantPointer);
        return fpmap[fp];
      }
      t := File(fp, ptrSize, ptrSize, Pointer);
    }

    method MakeProcedureType(args: seq<IrType>, ret: IrType, cc: nat, flags: nat) returns (t: IrType)
      requires Valid() && nextId < U32 && cc < U32 && flags < 256
      requires ChildrenIn(WantProcedure(args, ret, cc, flags), fpmap.Values)
      modifies this
      ensures Valid() && Made(old(fpmap), fpmap, WantProcedure(args, ret, cc, flags), t)
    {
      ghost var w := WantProcedure(args, ret, cc, flags);
      var fp := ProcedureFp(args, ret, cc, flags);
      ChildrenInRange(fpmap, nextId, ptrSize, w);
      hide TableOk, Fp, InRange, ChildrenIn;
      if fp in fpmap {
        FoundIsWanted(fpmap, nextId, ptrSize, w);
        return fpmap[fp];
      }
      PtrSmall(fpmap, nextId, ptrSize);
      t := File(fp, ptrSize, ptrSize, Procedure(args, ret, cc, flags));
    }

    method MakeArrayType(elem: IrType, count: nat) returns (t: IrType)
      requires Valid() && nextId < U32 && elem in fpmap.Values && count < U64
      modifies this
      ensures Valid() && Made(old(fpmap), fpmap, WantAggregate([(elem, count)]), t)
    {
      ghost var w := WantAggregate([(elem, count)]);
      var fp := Bytes(0, 4) + Bytes(1, 8) + Bytes(elem.id, 4) + Bytes(count, 8);
      ArrayFp(elem, count);
      InTable(fpmap, nextId, ptrSize, elem);
      ChildrenInRange(fpmap, nextId, ptrSize, w);
      ArrayMeasured(elem, count, nextId, ptrSize);
      hide TableOk, Fp, InRange, ChildrenIn, Bytes, Measured, Sized;
      if fp in fpmap {
        FoundIsWanted(fpmap, nextId, ptrSize, w);
        return fpmap[fp];
      }
      t := File(fp, elem.size * count, elem.align, Aggregate([Elem(elem, count, 0)]));
    }

    method MakeVoidType() returns (t: IrType)
      requires Valid() && nextId < U32
      modifies this
      ensures Valid() && Made(old(fpmap), fpmap, WantAggregate([]), t)
    {
      var fp := Bytes(0, 4) + Bytes(0, 8);
      assert fp == Fp(WantAggregate([]));
      if fp in fpmap {
        FoundIsWanted(fpmap, nextId, ptrSize, WantAggregate([]));
        return fpmap[fp];
      }
      assert Bare([]) == [];
      t := File(fp, 0, 1, Aggregate([]));
    }

    method MakeAggregateType(elems: seq<(IrType, nat)>) returns (t: IrType)
      requires Valid() && nextId < U32 && |elems| < U64
      requires ChildrenIn(WantAggregate(elems), fpmap.Values) && forall k | 0 <= k < |elems| :: elems[k].1 < U64
      modifies this
      ensures Valid() && Made(old(fpmap), fpmap, WantAggregate(elems), t)
    {
      ghost var w := WantAggregate(elems);
      var fp := AggregateFp(elems);
      ChildrenInRange(fpmap, nextId, ptrSize, w);
      if fp in fpmap {
        FoundIsWanted(fpmap, nextId, ptrSize, w);
        hide TableOk, Fp, InRange, ChildrenIn;
        return fpmap[fp];
      }
      AggregateSized(fpmap, nextId, ptrSize, elems);
      hide TableOk, Fp, InRange, ChildrenIn, Lays;
      var layout := CalcAggregateLayout(Fields(elems));
      var info := WithOffsets(elems, layout.offsets);
      AggregateMeasured(elems, layout, nextId, ptrSize);
      t := File(fp, layout.size, layout.align, Aggregate(info));
    }
  }

  method ProcedureFp(args: seq<IrType>, ret: IrType, cc: nat, flags: nat) returns (fp: seq<Byte>)
    ensures fp == Fp(WantProcedure(args, ret, cc, flags))
  {
    hide *;
    fp := Bytes(3, 4);
    NoArgBytes(args, fp);
    var i := 0;
    while i < |args|
      invariant 0 <= i <= |args| && fp == Bytes(3, 4) + ArgBytes(args[..i])
    {
      ArgBytesNext(args, i, Bytes(3, 4));
      fp := fp + Bytes(args[i].id, 4);
      i := i + 1;
    }
    assert args[..i] == args;
    ProcedureFpIs(args, ret, cc, flags, fp);
    fp := fp + Bytes(ret.id, 4);
    fp := fp + Bytes(cc, 4);
    fp := fp + Bytes(flags, 1);
  }

  lemma NoArgBytes(args: seq<IrType>, head: seq<Byte>)
    ensures head == head + ArgBytes(args[..0])
  {}

  lemma ProcedureFpIs(args: seq<IrType>, ret: IrType, cc: nat, flags: nat, fp: seq<Byte>)
    requires fp == Bytes(3, 4) + ArgBytes(args)
    ensures fp + Bytes(ret.id, 4) + Bytes(cc, 4) + Bytes(flags, 1) == Fp(WantProcedure(args, ret, cc, flags))
  {
    hide Bytes, ArgBytes;
    Regrouped(Bytes(3, 4), ArgBytes(args), Bytes(ret.id, 4), Bytes(cc, 4) + Bytes(flags, 1));
  }

  lemma ArgBytesNext(args: seq<IrType>, i: nat, head: seq<Byte>)
    requires i < |args|
    ensures head + ArgBytes(args[..i + 1]) == head + ArgBytes(args[..i]) + Bytes(args[i].id, 4)
  {
    assert args[..i + 1][..i] == args[..i];
    assert ArgBytes(args[..i + 1]) == ArgBytes(args[..i]) + Bytes(args[i].id, 4);
    hide *;
    Regrouped(head, ArgBytes(args[..i]), Bytes(args[i].id, 4), []);
  }

  method AggregateFp(elems: seq<(IrType, nat)>) returns (fp: seq<Byte>)
    ensures fp == Fp(WantAggregate(elems))
  {
    fp := Bytes(0, 4) + Bytes(|elems|, 8);
    ghost var head := fp;
    assert elems[..0] == [] && ElemBytes([]) == [];
    assert head + (ElemBytes(elems)) == Fp(WantAggregate(elems));
    hide *;
    var i := 0;
    while i < |elems|
      invariant 0 <= i <= |elems| && fp == head + ElemBytes(elems[..i])
    {
      ElemBytesNext(elems, i);
      Regrouped(head, ElemBytes(elems[..i]), Bytes(elems[i].0.id, 4), Bytes(elems[i].1, 8));
      fp := fp + Bytes(elems[i].0.id, 4);
      fp := fp + Bytes(elems[i].1, 8);
      i := i + 1;
    }
    assert elems[..i] == elems;
  }

  lemma Regrouped<T>(a: seq<T>, b: seq<T>, c: seq<T>, d: seq<T>)
    ensures a + b + c + d == a + (b + c + d)
  {}

  lemma ElemBytesNext(elems: seq<(IrType, nat)>, i: nat)
    requires i < |elems|
    ensures ElemBytes(elems[..i + 1]) == ElemBytes(elems[..i]) + Bytes(elems[i].0.id, 4) + Bytes(elems[i].1, 8)
  {
    hide Bytes;
    assert elems[..i + 1][..i] == elems[..i];
  }

  function WithOffsets(elems: seq<(IrType, nat)>, offsets: seq<nat>): (r: seq<Elem>)
    requires |offsets| == |elems|
    ensures |r| == |elems|
  {
    seq(|elems|, k requires 0 <= k < |elems| => Elem(elems[k].0, elems[k].1, offsets[k]))
  }

  lemma PtrSmall(table: Table, nextId: nat, ptrSize: nat)
    requires TableOk(table, nextId, ptrSize)
    ensures 0 < ptrSize < 256
  {}

  lemma AggregateMeasured(elems: seq<(IrType, nat)>, l: Layout, id: nat, ptrSize: nat)
    requires var fields := Fields(elems);
             && Sizes(fields) && MaxAlign(fields, |fields|) < 256
             && |l.offsets| == |fields| && (forall k | 0 <= k < |fields| :: l.offsets[k] == OffsetOf(fields, k))
             && l.align == MaxAlign(fields, |fields|) && l.size == RoundUp(End(fields, |fields|), l.align)
    ensures var t := IrType(id, l.size, l.align, Aggregate(WithOffsets(elems, l.offsets)));
            Bare(t.desc.elems) == elems && Measured(t, ptrSize) && Sized(t)
  {
    var info := WithOffsets(elems, l.offsets);
    assert Bare(info) == elems;
    hide RoundUp, MaxAlign, End, OffsetOf;
    RoundUpMultiple(End(Fields(elems), |elems|), l.align);
  }

  lemma RoundUpMultiple(v: nat, m: nat)
    requires m > 0
    ensures RoundUp(v, m) % m == 0
  {}

  /** The type asked for is in the table afterwards; if one was there before it is that one and nothing changes;
      whatever was there before still is. */
  ghost predicate Made(before: Table, after: Table, w: Want, t: IrType) {
    && t in after.Values && Wanted(t.desc) == w
    && (if Fp(w) in before then after == before && t == before[Fp(w)] else after == before[Fp(w) := t])
    && before.Values <= after.Values
  }

  lemma ArrayFp(elem: IrType, count: nat)
    ensures Bytes(0, 4) + Bytes(1, 8) + Bytes(elem.id, 4) + Bytes(count, 8) == Fp(WantAggregate([(elem, count)]))
  {
    var one := [(elem, count)];
    assert one[..0] == [] && ElemBytes([]) == [];
    hide Bytes;
    assert ElemBytes(one) == Bytes(elem.id, 4) + Bytes(count, 8);
  }

  lemma ChildrenInRange(table: Table, nextId: nat, ptrSize: nat, w: Want)
    requires TableOk(table, nextId, ptrSize) && ChildrenIn(w, table.Values)
    requires match w
             case WantAggregate(elems) => |elems| < U64 && forall k | 0 <= k < |elems| :: elems[k].1 < U64
             case WantProcedure(_, _, cc, flags) => cc < U32 && flags < 256
             case _ => false
    ensures InRange(w)
  {
    match w
    case WantAggregate(elems) =>
      forall k | 0 <= k < |elems| ensures elems[k].0.id < U32 { InTable(table, nextId, ptrSize, elems[k].0); }
    case WantProcedure(args, ret, _, _) =>
      forall k | 0 <= k < |args| ensures args[k].id < U32 { InTable(table, nextId, ptrSize, args[k]); }
      InTable(table, nextId, ptrSize, ret);
    case _ =>
  }

  /** An array is laid out as the aggregate of one element would be. */
  lemma ArrayMeasured(elem: IrType, count: nat, id: nat, ptrSize: nat)
    requires Sized(elem)
    ensures var t := IrType(id, elem.size * count, elem.align, Aggregate([Elem(elem, count, 0)]));
            Measured(t, ptrSize) && Sized(t) && Bare(t.desc.elems) == [(elem, count)]
  {
    var fields := [Field(elem.size, elem.align, count)];
    assert Bare([Elem(elem, count, 0)]) == [(elem, count)];
    assert Fields([(elem, count)]) == fields;
    RoundUpIsLeast(0, elem.align, 0);
    MulDivides(count, elem.size, elem.align);
    RoundUpIsLeast(elem.size * count, elem.align, elem.size * count);
    assert End(fields, 0) == 0 && OffsetOf(fields, 0) == 0;
    assert End(fields, 1) == 0 + elem.size * count;
    assert MaxAlign(fields, 0) == 1 && MaxAlign(fields, 1) == elem.align;
  }

  lemma {:induction false} MaxAlignSmall(fields: seq<Field>, k: nat)
    requires k <= |fields| && forall j | 0 <= j < k :: fields[j].align < 256
    ensures MaxAlign(fields, k) < 256
    decreases k
  {
    if k > 0 { MaxAlignSmall(fields, k - 1); }
  }

  lemma AggregateSized(table: Table, nextId: nat, ptrSize: nat, elems: seq<(IrType, nat)>)
    requires TableOk(table, nextId, ptrSize) && ChildrenIn(WantAggregate(elems), table.Values)
    ensures Sizes(Fields(elems)) && MaxAlign(Fields(elems), |elems|) < 256
  {
    forall k | 0 <= k < |elems| ensures Sized(elems[k].0) { InTable(table, nextId, ptrSize, elems[k].0); }
    MaxAlignSmall(Fields(elems), |elems|);
  }

  lemma AggregateFields(elems: seq<Elem>, k: nat)
    requires k < |elems|
    ensures Fields(Bare(elems))[k] == Field(elems[k].ty.size, elems[k].ty.align, elems[k].count)
  {}

  /** In every aggregate in the table each element is aligned for its type and lies behind the ones before it, and
      the aggregate holds them all. */
  lemma LaidOut(table: Table, nextId: nat, ptrSize: nat, t: IrType)
    requires TableOk(table, nextId, ptrSize) && t in table.Values && t.desc.Aggregate?
    ensures var es := t.desc.elems;
            && (forall k | 0 <= k < |es| :: 0 < es[k].ty.align <= t.align && es[k].offset % es[k].ty.align == 0)
            && (forall j, k | 0 <= j < k < |es| :: es[j].offset + es[j].ty.size * es[j].count <= es[k].offset)
            && (forall k | 0 <= k < |es| :: es[k].offset + es[k].ty.size * es[k].count <= t.size)
            && t.align > 0 && t.size % t.align == 0
  {
    InTable(table, nextId, ptrSize, t);
    var es := t.desc.elems;
    assert Wanted(t.desc) == WantAggregate(Bare(es));
    hide TableOk, InRange, Fp, Wanted, ChildrenIn, Measured;
    ElemsSized(table, nextId, ptrSize, es);
    assert t.size % t.align == 0 && t.align > 0;
    MeasuredLays(t, ptrSize);
  }

  lemma MeasuredLays(t: IrType, ptrSize: nat)
    requires t.desc.Aggregate? && Measured(t, ptrSize) && forall k | 0 <= k < |t.desc.elems| :: 0 < t.desc.elems[k].ty.align
    ensures var es := t.desc.elems;
            && (forall k | 0 <= k < |es| :: 0 < es[k].ty.align <= t.align && es[k].offset % es[k].ty.align == 0)
            && (forall j, k | 0 <= j < k < |es| :: es[j].offset + es[j].ty.size * es[j].count <= es[k].offset)
            && (forall k | 0 <= k < |es| :: es[k].offset + es[k].ty.size * es[k].count <= t.size)
  {
    var es := t.desc.elems;
    var fields, offsets := Fields(Bare(es)), seq(|es|, k requires 0 <= k < |es| => es[k].offset);
    hide RoundUp, MaxAlign, End, OffsetOf;
    MaxAlignCovers(fields, |fields|);
    OffsetsLay(fields, offsets, t.size, t.align);
    forall k | 0 <= k < |es| ensures fields[k] == Field(es[k].ty.size, es[k].ty.align, es[k].count) { AggregateFields(es, k); }
    hide *;
    ElemsLaid(es, fields, offsets, t.size, t.align);
  }

  lemma ElemsSized(table: Table, nextId: nat, ptrSize: nat, es: seq<Elem>)
    requires TableOk(table, nextId, ptrSize) && ChildrenIn(WantAggregate(Bare(es)), table.Values)
    ensures forall k | 0 <= k < |es| :: 0 < es[k].ty.align
  {
    hide TableOk;
    forall k | 0 <= k < |es| ensures 0 < es[k].ty.align {
      assert Bare(es)[k].0 == es[k].ty;
      InTable(table, nextId, ptrSize, es[k].ty);
    }
  }

  lemma ElemsLaid(es: seq<Elem>, fields: seq<Field>, offsets: seq<nat>, size: nat, align: nat)
    requires Lays(fields, offsets, size, align) && |fields| == |es|
    requires forall k | 0 <= k < |es| :: fields[k] == Field(es[k].ty.size, es[k].ty.align, es[k].count)
    requires forall k | 0 <= k < |es| :: offsets[k] == es[k].offset && 0 < es[k].ty.align
    ensures forall k | 0 <= k < |es| :: es[k].offset % es[k].ty.align == 0
    ensures forall j, k | 0 <= j < k < |es| :: es[j].offset + es[j].ty.size * es[j].count <= es[k].offset
    ensures forall k | 0 <= k < |es| :: es[k].offset + es[k].ty.size * es[k].count <= size
  {
    forall k | 0 <= k < |es| ensures es[k].offset % es[k].ty.align == 0 { assert offsets[k] % fields[k].align == 0; }
    forall j | 0 <= j < |es| ensures Extent(fields[j]) == es[j].ty.size * es[j].count {}
    hide Extent;
    forall j, k | 0 <= j < k < |es| ensures es[j].offset + es[j].ty.size * es[j].count <= es[k].offset {
      assert offsets[j] + Extent(fields[j]) <= offsets[k];
    }
  }

  lemma {:induction false} MaxAlignCovers(fields: seq<Field>, k: nat)
    requires k <= |fields|
    ensures forall j | 0 <= j < k :: fields[j].align <= MaxAlign(fields, k)
  {
    if k > 0 { MaxAlignCovers(fields, k - 1); }
  }

  // --- Structure all the way down ---

  datatype Shape =
    | ShapeAggregate(elems: seq<(Shape, nat)>)
    | ShapeNumeric(vt: nat)
    | ShapePointer
    | ShapeProcedure(args: seq<Shape>, ret: Shape, callConv: nat, flags: nat)

  /** A type without identities, sizes or offsets. */
  function ShapeOf(t: IrType): Shape {
    match t.desc
    case Aggregate(elems) =>
      ShapeAggregate(seq(|elems|, k requires 0 <= k < |elems| => (ShapeOf(elems[k].ty), elems[k].count)))
    case Numeric(vt) => ShapeNumeric(vt)
    case Pointer => ShapePointer
    case Procedure(args, ret, cc, flags) =>
      ShapeProcedure(seq(|args|, k requires 0 <= k < |args| => ShapeOf(args[k])), ShapeOf(ret), cc, flags)
  }

  /** Types are the same exactly when they have the same structure all the way down. */
  lemma {:induction false} HashConsed(table: Table, nextId: nat, ptrSize: nat, s: IrType, t: IrType)
    requires TableOk(table, nextId, ptrSize) && s in table.Values && t in table.Values
    ensures s == t <==> ShapeOf(s) == ShapeOf(t)
    decreases s
  {
    if ShapeOf(s) == ShapeOf(t) {
      InTable(table, nextId, ptrSize, s);
      InTable(table, nextId, ptrSize, t);
      match s.desc
      case Aggregate(elems) => SameElems(table, nextId, ptrSize, s, t);
      case Numeric(_) =>
      case Pointer =>
      case Procedure(args, ret, _, _) => SameArgs(table, nextId, ptrSize, s, t);
      Exact(table, nextId, ptrSize, s, t);
    }
  }

  lemma {:induction false} SameElems(table: Table, nextId: nat, ptrSize: nat, s: IrType, t: IrType)
    requires TableOk(table, nextId, ptrSize) && s.desc.Aggregate? && ShapeOf(s) == ShapeOf(t)
    requires ChildrenIn(Wanted(s.desc), table.Values) && ChildrenIn(Wanted(t.desc), table.Values)
    ensures Wanted(s.desc) == Wanted(t.desc)
    decreases s, 0
  {
    var xs, ys := s.desc.elems, t.desc.elems;
    assert |ShapeOf(s).elems| == |xs| && |ShapeOf(t).elems| == |ys|;
    forall k | 0 <= k < |xs| ensures Bare(xs)[k] == Bare(ys)[k] {
      assert ShapeOf(s).elems[k] == ShapeOf(t).elems[k];
      assert Bare(xs)[k].0 in table.Values && Bare(ys)[k].0 in table.Values;
      HashConsed(table, nextId, ptrSize, xs[k].ty, ys[k].ty);
    }
    assert Bare(xs) == Bare(ys);
  }

  lemma {:induction false} SameArgs(table: Table, nextId: nat, ptrSize: nat, s: IrType, t: IrType)
    requires TableOk(table, nextId, ptrSize) && s.desc.Procedure? && ShapeOf(s) == ShapeOf(t)
    requires ChildrenIn(Wanted(s.desc), table.Values) && ChildrenIn(Wanted(t.desc), table.Values)
    ensures Wanted(s.desc) == Wanted(t.desc)
    decreases s, 0
  {
    var xs, ys := s.desc.args, t.desc.args;
    assert |ShapeOf(s).args| == |xs| && |ShapeOf(t).args| == |ys|;
    forall k | 0 <= k < |xs| ensures xs[k] == ys[k] {
      assert ShapeOf(s).args[k] == ShapeOf(t).args[k];
      HashConsed(table, nextId, ptrSize, xs[k], ys[k]);
    }
    assert xs == ys;
    HashConsed(table, nextId, ptrSize, s.desc.ret, t.desc.ret);
  }
}
