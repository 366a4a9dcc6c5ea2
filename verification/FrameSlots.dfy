/** Frame space of a proc's locals: nested scopes give their space back when they end. */
module FrameSlots {
  import opened Rounding

  datatype Type = Type(size: nat, align: nat)
  datatype Slot = Slot(ty: Type, offset: nat)

  /** locals, scopes, cur_frame_size, frame_size and frame_align of a proc. */
  datatype Frame = Frame(locals: seq<Slot>, scopes: seq<nat>, cur: nat, size: nat, align: nat)

  const EMPTY := Frame([], [], 0, 0, 1)

  function Enter(f: Frame): Frame { f.(scopes := f.scopes + [f.cur]) }

  function Leave(f: Frame): Frame
    requires f.scopes != []
  {
    f.(cur := f.scopes[|f.scopes| - 1], scopes := f.scopes[..|f.scopes| - 1])
  }

  function MakeLocal(f: Frame, ty: Type): Frame {
    var offset := RoundUp(f.cur, ty.align);
    Frame(f.locals + [Slot(ty, offset)], f.scopes, offset + ty.size, Max(f.size, offset + ty.size), Max(f.align, ty.align))
  }

  function Finish(f: Frame): Frame { f.(size := RoundUp(f.size, f.align)) }

  // --- Runs ---

  datatype Action = DoEnter | DoLeave | DoLocal(ty: Type)

  /** A frame with the book-keeping the claims are about: which locals are in scope, and where each open
      scope begins in that list. */
  datatype Run = Run(f: Frame, open: seq<nat>, marks: seq<nat>)

  const START := Run(EMPTY, [], [])

  function Step(r: Run, a: Action): Run
    requires a.DoLeave? ==> r.f.scopes != [] && r.marks != [] && r.marks[|r.marks| - 1] <= |r.open|
  {
    match a
    case DoEnter => r.(f := Enter(r.f), marks := r.marks + [|r.open|])
    case DoLeave => r.(f := Leave(r.f), marks := r.marks[..|r.marks| - 1], open := r.open[..r.marks[|r.marks| - 1]])
    case DoLocal(ty) =>
      var f := MakeLocal(r.f, ty);
      r.(f := f, open := r.open + [|r.f.locals|])
  }

  predicate WellNested(actions: seq<Action>, depth: nat) {
    actions == [] ||
    match actions[0]
    case DoEnter => WellNested(actions[1..], depth + 1)
    case DoLeave => depth > 0 && WellNested(actions[1..], depth - 1)
    case DoLocal(_) => WellNested(actions[1..], depth)
  }

  function End(s: Slot): nat { s.offset + s.ty.size }

  /** Where the latest of some locals ends. */
  function Top(locals: seq<Slot>, open: seq<nat>): nat {
    if open == [] || open[|open| - 1] >= |locals| then 0 else End(locals[open[|open| - 1]])
  }

  predicate Aligned(s: Slot) { s.ty.align > 0 ==> s.offset % s.ty.align == 0 }

  /** Locals in scope, one behind the other, up to the space in use. */
  ghost predicate InOrder(r: Run) {
    && (forall k | 0 <= k < |r.open| :: r.open[k] < |r.f.locals| && End(r.f.locals[r.open[k]]) <= r.f.cur)
    && (forall j, k | 0 <= j < k < |r.open| :: End(r.f.locals[r.open[j]]) <= r.f.locals[r.open[k]].offset)
    && r.f.cur == Top(r.f.locals, r.open)
  }

  /** What each open scope remembers: the space in use when it began. */
  ghost predicate Remembers(r: Run) {
    && |r.marks| == |r.f.scopes|
    && (forall s | 0 <= s < |r.marks| :: r.marks[s] <= |r.open|)
    && (forall s, k | 0 <= s < |r.marks| && 0 <= k < r.marks[s] :: r.open[k] < |r.f.locals| && End(r.f.locals[r.open[k]]) <= r.f.scopes[s])
    && (forall s, t | 0 <= s < t < |r.marks| :: r.marks[s] <= r.marks[t])
    && (forall s | 0 <= s < |r.marks| :: r.f.scopes[s] == Top(r.f.locals, r.open[..r.marks[s]]))
  }

  /** Everything made so far is inside the frame. */
  ghost predicate Inside(f: Frame) {
    && (forall l | l in f.locals :: Aligned(l) && End(l) <= f.size && l.ty.align <= f.align)
    && f.cur <= f.size && (forall s | 0 <= s < |f.scopes| :: f.scopes[s] <= f.size)
  }

  ghost predicate Inv(r: Run) { InOrder(r) && Remembers(r) && Inside(r.f) }

  lemma EnterInv(r: Run)
    requires Inv(r)
    ensures Inv(Step(r, DoEnter))
  {
    assert r.open[..|r.open|] == r.open;
  }

  lemma LeaveInv(r: Run)
    requires Inv(r) && r.f.scopes != []
    ensures Inv(Step(r, DoLeave))
  {
    var r' := Step(r, DoLeave);
    forall s | 0 <= s < |r'.marks| ensures r'.open[..r'.marks[s]] == r.open[..r.marks[s]] {}
    forall k | 0 <= k < |r'.open| ensures End(r'.f.locals[r'.open[k]]) <= r'.f.cur {
      assert r'.open[k] == r.open[k];
    }
  }

  lemma LocalInv(r: Run, ty: Type)
    requires Inv(r)
    ensures Inv(Step(r, DoLocal(ty)))
  {
    LocalInOrder(r, ty);
    LocalRemembers(r, ty);
    LocalInside(r.f, ty);
    hide InOrder, Remembers, Inside, MakeLocal;
  }

  lemma LocalInOrder(r: Run, ty: Type)
    requires InOrder(r)
    ensures InOrder(Step(r, DoLocal(ty)))
  {
    hide RoundUp;
    var r', n := Step(r, DoLocal(ty)), |r.open|;
    assert r'.open[n] == |r.f.locals|;
    assert forall k | 0 <= k < n :: r'.open[k] == r.open[k] && r'.f.locals[r.open[k]] == r.f.locals[r.open[k]];
  }

  lemma LocalRemembers(r: Run, ty: Type)
    requires Remembers(r)
    ensures Remembers(Step(r, DoLocal(ty)))
  {
    hide RoundUp;
    var r' := Step(r, DoLocal(ty));
    forall s | 0 <= s < |r.marks| ensures Top(r'.f.locals, r'.open[..r.marks[s]]) == Top(r.f.locals, r.open[..r.marks[s]]) {
      assert r'.open[..r.marks[s]] == r.open[..r.marks[s]];
      if r.marks[s] > 0 { assert r.open[r.marks[s] - 1] < |r.f.locals|; }
    }
  }

  lemma LocalInside(f: Frame, ty: Type)
    requires Inside(f)
    ensures Inside(MakeLocal(f, ty))
  {
    var f' := MakeLocal(f, ty);
    assert forall l | l in f'.locals :: l in f.locals || l == f'.locals[|f.locals|];
  }

  lemma StepInv(r: Run, a: Action)
    requires Inv(r) && (a.DoLeave? ==> r.f.scopes != [])
    ensures Inv(Step(r, a)) && |Step(r, a).f.scopes| == |r.f.scopes| + (if a.DoEnter? then 1 else if a.DoLeave? then -1 else 0)
  {
    match a
    case DoEnter => EnterInv(r);
    case DoLeave => LeaveInv(r);
    case DoLocal(ty) => LocalInv(r, ty);
  }

  function RunAll(r: Run, actions: seq<Action>): (r': Run)
    requires Inv(r) && WellNested(actions, |r.f.scopes|)
    ensures Inv(r')
    decreases |actions|
  {
    if actions == [] then r else
    StepInv(r, actions[0]);
    RunAll(Step(r, actions[0]), actions[1..])
  }

  /** The largest space in use at any moment. */
  function Peak(r: Run, actions: seq<Action>): nat
    requires Inv(r) && WellNested(actions, |r.f.scopes|)
    decreases |actions|
  {
    if actions == [] then r.f.cur else
    StepInv(r, actions[0]);
    Max(r.f.cur, Peak(Step(r, actions[0]), actions[1..]))
  }

  lemma {:induction false} SizeIsPeak(r: Run, actions: seq<Action>)
    requires Inv(r) && WellNested(actions, |r.f.scopes|)
    ensures RunAll(r, actions).f.size == Max(r.f.size, Peak(r, actions))
    decreases |actions|
  {
    if actions != [] {
      StepInv(r, actions[0]);
      SizeIsPeak(Step(r, actions[0]), actions[1..]);
    }
  }

  /** Two slots do not overlap, and both lie below the space in use. */
  predicate Apart(a: Slot, b: Slot, cur: nat) {
    (End(a) <= b.offset || End(b) <= a.offset) && End(a) <= cur && End(b) <= cur
  }

  lemma OpenApart(r: Run, j: nat, k: nat)
    requires Inv(r) && j < k < |r.open|
    ensures r.open[j] < |r.f.locals| && r.open[k] < |r.f.locals|
    ensures Apart(r.f.locals[r.open[j]], r.f.locals[r.open[k]], r.f.cur)
  {}

  ghost predicate Disjoint(r: Run) {
    forall j, k | 0 <= j < k < |r.open| ::
      r.open[j] < |r.f.locals| && r.open[k] < |r.f.locals| &&
      Apart(r.f.locals[r.open[j]], r.f.locals[r.open[k]], r.f.cur)
  }

  ghost predicate Fitting(r: Run) {
    forall l | l in r.f.locals :: Aligned(l) && End(l) <= r.f.size
  }

  lemma InvDisjoint(r: Run)
    requires Inv(r)
    ensures Disjoint(r)
  {
    forall j, k | 0 <= j < k < |r.open|
      ensures r.open[j] < |r.f.locals| && r.open[k] < |r.f.locals| &&
              Apart(r.f.locals[r.open[j]], r.f.locals[r.open[k]], r.f.cur)
    {
      OpenApart(r, j, k);
    }
  }

  lemma InvFitting(r: Run)
    requires Inv(r)
    ensures Fitting(r)
  {}

  lemma StartInv()
    ensures Inv(START) && START.f.size == 0
  {
    var r := START;
    assert r.f.locals == [] && r.open == [];
  }

  ghost predicate Slotted(e: Run, peak: nat) { Disjoint(e) && Fitting(e) && e.f.size == peak }

  lemma SlotsDisjointFrom(r: Run, actions: seq<Action>)
    requires Inv(r) && WellNested(actions, |r.f.scopes|) && r.f.size == 0
    ensures Slotted(RunAll(r, actions), Peak(r, actions))
  {
    SizeIsPeak(r, actions);
    var e := RunAll(r, actions);
    InvDisjoint(e);
    InvFitting(e);
  }

  /** After any well-nested sequence, from an empty frame: locals in scope occupy disjoint space below the current
      size, every local ever made is aligned and fits, and the size is exactly the largest space ever in use. */
  lemma SlotsDisjoint(r: Run, actions: seq<Action>)
    requires r == START && WellNested(actions, 0)
    ensures Inv(r) && |r.f.scopes| == 0
    ensures Slotted(RunAll(r, actions), Peak(r, actions))
  {
    StartInv();
    SlotsDisjointFrom(r, actions);
  }

  lemma FinishRounds(f: Frame)
    requires f.align > 0
    ensures Finish(f).size % f.align == 0 && f.size <= Finish(f).size < f.size + f.align
  {}

  // --- Giving space back ---

  /** How deep a well-nested sequence ends. */
  function Depth(actions: seq<Action>, depth: nat): nat
    requires WellNested(actions, depth)
  {
    if actions == [] then depth else
    match actions[0]
    case DoEnter => Depth(actions[1..], depth + 1)
    case DoLeave => Depth(actions[1..], depth - 1)
    case DoLocal(_) => Depth(actions[1..], depth)
  }

  lemma {:induction false} Deeper(actions: seq<Action>, depth: nat, more: nat)
    requires WellNested(actions, depth)
    ensures WellNested(actions, depth + more) && Depth(actions, depth + more) == Depth(actions, depth) + more
    decreases |actions|
  {
    if actions != [] {
      match actions[0]
      case DoEnter => Deeper(actions[1..], depth + 1, more);
      case DoLeave => Deeper(actions[1..], depth - 1, more);
      case DoLocal(_) => Deeper(actions[1..], depth, more);
    }
  }

  lemma {:induction false} NestedConcat(a: seq<Action>, b: seq<Action>, depth: nat)
    requires WellNested(a, depth) && WellNested(b, Depth(a, depth))
    ensures WellNested(a + b, depth)
    decreases |a|
  {
    if a == [] {
      assert a + b == b;
    } else {
      assert (a + b)[1..] == a[1..] + b;
      match a[0]
      case DoEnter => NestedConcat(a[1..], b, depth + 1);
      case DoLeave => NestedConcat(a[1..], b, depth - 1);
      case DoLocal(_) => NestedConcat(a[1..], b, depth);
    }
  }

  lemma FirstStep(r: Run, a: seq<Action>)
    requires Inv(r) && a != [] && WellNested(a, |r.f.scopes|)
    ensures a[0].DoLeave? ==> r.f.scopes != [] && r.marks != [] && r.marks[|r.marks| - 1] <= |r.open|
    ensures Inv(Step(r, a[0])) && WellNested(a[1..], |Step(r, a[0]).f.scopes|)
    ensures Depth(a, |r.f.scopes|) == Depth(a[1..], |Step(r, a[0]).f.scopes|)
  {
    hide InOrder, Inside;
    StepInv(r, a[0]);
  }

  lemma {:induction false} RunConcat(r: Run, a: seq<Action>, b: seq<Action>)
    requires Inv(r) && WellNested(a, |r.f.scopes|) && WellNested(b, Depth(a, |r.f.scopes|))
    ensures WellNested(a + b, |r.f.scopes|)
    ensures |RunAll(r, a).f.scopes| == Depth(a, |r.f.scopes|)
    ensures RunAll(r, a + b) == RunAll(RunAll(r, a), b)
    decreases |a|
  {
    hide Inv, Step;
    NestedConcat(a, b, |r.f.scopes|);
    if a == [] {
      assert a + b == b;
    } else {
      FirstStep(r, a);
      assert (a + b)[0] == a[0] && (a + b)[1..] == a[1..] + b;
      RunConcat(Step(r, a[0]), a[1..], b);
    }
  }

  /** Of the scopes open at the beginning, the first n stay open throughout: what they remember, and the locals made
      before the last of them, are still there. */
  ghost predicate Untouched(r: Run, e: Run, n: nat) {
    && n <= |r.f.scopes| && n <= |e.f.scopes| && n <= |r.marks| && n <= |e.marks|
    && e.f.scopes[..n] == r.f.scopes[..n] && e.marks[..n] == r.marks[..n]
    && (n > 0 ==> r.marks[n - 1] <= |r.open| && r.marks[n - 1] <= |e.open| && e.open[..r.marks[n - 1]] == r.open[..r.marks[n - 1]])
    && r.f.locals <= e.f.locals
  }

  lemma UntouchedOne(r: Run, a: Action, n: nat)
    requires Inv(r) && n <= |r.f.scopes| && (a.DoLeave? ==> n < |r.f.scopes|)
    ensures Untouched(r, Step(r, a), n)
  {
    if a.DoLeave? && n > 0 {
      var m := r.marks[|r.marks| - 1];
      assert r.marks[n - 1] <= m;
      assert r.open[..m][..r.marks[n - 1]] == r.open[..r.marks[n - 1]];
    }
  }

  lemma UntouchedTwo(r: Run, d: Run, e: Run, n: nat)
    requires Untouched(r, d, n) && Untouched(d, e, n)
    ensures Untouched(r, e, n)
  {
    if n > 0 {
      assert d.marks[n - 1] == d.marks[..n][n - 1] == r.marks[..n][n - 1];
    }
  }

  lemma Unfolded(r: Run, actions: seq<Action>, n: nat) returns (d: Run)
    requires Inv(r) && n <= |r.f.scopes| && WellNested(actions, |r.f.scopes| - n) && WellNested(actions, |r.f.scopes|)
    requires actions != []
    ensures actions[0].DoLeave? ==> n < |r.f.scopes| && r.marks != [] && r.marks[|r.marks| - 1] <= |r.open|
    ensures d == Step(r, actions[0]) && Inv(d) && n <= |d.f.scopes|
    ensures WellNested(actions[1..], |d.f.scopes| - n) && WellNested(actions[1..], |d.f.scopes|)
    ensures RunAll(r, actions) == RunAll(d, actions[1..])
  {
    hide Inv, Top, Enter, Leave, MakeLocal;
    LeaveReady(r);
    d := Step(r, actions[0]);
    StepInv(r, actions[0]);
  }

  lemma LeaveReady(r: Run)
    requires Inv(r)
    ensures r.f.scopes != [] ==> r.marks != [] && r.marks[|r.marks| - 1] <= |r.open|
  {}

  lemma {:induction false} UntouchedAll(r: Run, actions: seq<Action>, n: nat)
    requires Inv(r) && n <= |r.f.scopes| && WellNested(actions, |r.f.scopes| - n) && WellNested(actions, |r.f.scopes|)
    ensures Untouched(r, RunAll(r, actions), n)
    decreases |actions|
  {
    if actions != [] {
      var d := Unfolded(r, actions, n);
      UntouchedOne(r, actions[0], n);
      hide *;
      UntouchedAll(d, actions[1..], n);
      UntouchedTwo(r, d, RunAll(d, actions[1..]), n);
    }
  }

  /** A scope with whatever happens in it leaves no trace in what is in use: its space is there for the next one. */
  lemma SpaceShared(r: Run, actions: seq<Action>)
    requires Inv(r) && WellNested(actions, 0) && Depth(actions, 0) == 0
    ensures WellNested([DoEnter] + actions + [DoLeave], |r.f.scopes|)
    ensures var e := RunAll(r, [DoEnter] + actions + [DoLeave]);
            e.f.cur == r.f.cur && e.f.scopes == r.f.scopes && e.open == r.open && r.f.locals <= e.f.locals
  {
    var n := |r.f.scopes|;
    var r1 := Step(r, DoEnter);
    var inner := [DoEnter] + actions;
    InnerRun(r, actions);
    assert |r1.f.scopes| == n + 1;
    hide Inv, WellNested, Depth, RunAll, Step;
    RunConcat(r, inner, [DoLeave]);
    UntouchedAll(r1, actions, n + 1);
    LeaveOne(RunAll(r, inner));
    Reopened(r, RunAll(r, inner));
  }

  lemma InnerRun(r: Run, actions: seq<Action>)
    requires Inv(r) && WellNested(actions, 0) && Depth(actions, 0) == 0
    ensures var n, inner := |r.f.scopes|, [DoEnter] + actions;
            && Inv(Step(r, DoEnter)) && WellNested(actions, 0) && WellNested(actions, n + 1)
            && WellNested(inner, n) && Depth(inner, n) == n + 1 && WellNested([DoLeave], n + 1)
            && RunAll(r, inner) == RunAll(Step(r, DoEnter), actions)
  {
    hide Inv, Top;
    var n := |r.f.scopes|;
    StepInv(r, DoEnter);
    Deeper(actions, 0, n + 1);
    assert ([DoEnter] + actions)[1..] == actions;
    assert [DoLeave][1..] == [];
  }

  lemma LeaveOne(r: Run)
    requires Inv(r) && r.f.scopes != []
    ensures WellNested([DoLeave], |r.f.scopes|) && r.marks != [] && r.marks[|r.marks| - 1] <= |r.open|
    ensures RunAll(r, [DoLeave]) == Step(r, DoLeave)
  {
    assert [DoLeave][1..] == [];
    StepInv(r, DoLeave);
  }

  lemma Reopened(r: Run, d: Run)
    requires Inv(r) && Inv(d) && |d.f.scopes| == |r.f.scopes| + 1 && Untouched(Step(r, DoEnter), d, |r.f.scopes| + 1)
    ensures var e := Step(d, DoLeave);
            e.f.cur == r.f.cur && e.f.scopes == r.f.scopes && e.open == r.open && r.f.locals <= e.f.locals
  {
    var n := |r.f.scopes|;
    var r1 := Step(r, DoEnter);
    assert d.f.scopes == d.f.scopes[..n + 1] == r1.f.scopes && d.marks == d.marks[..n + 1] == r1.marks;
    assert r1.open[..|r.open|] == r.open;
  }

  /** A new local begins at the least aligned offset that is not inside or below a local in scope. */
  lemma LeastOffset(r: Run, ty: Type, other: nat)
    requires Inv(r) && ty.align > 0
    ensures var slot := MakeLocal(r.f, ty).locals[|r.f.locals|];
            && slot.ty == ty && slot.offset % ty.align == 0
            && (forall k | 0 <= k < |r.open| :: r.open[k] < |r.f.locals| && End(r.f.locals[r.open[k]]) <= slot.offset)
            && ((other % ty.align == 0
                 && forall k | 0 <= k < |r.open| :: r.open[k] < |r.f.locals| && End(r.f.locals[r.open[k]]) <= other)
                ==> slot.offset <= other)
  {
    if other % ty.align == 0 && r.f.cur <= other { RoundUpIsLeast(r.f.cur, ty.align, other); }
  }

  // --- Alignment of the frame ---

  ghost predicate Powered(f: Frame) { PowerOfTwo(f.align) && forall l | l in f.locals :: PowerOfTwo(l.ty.align) }

  lemma PoweredLocal(f: Frame, ty: Type)
    requires Powered(f) && PowerOfTwo(ty.align)
    ensures Powered(MakeLocal(f, ty))
  {
    var f' := MakeLocal(f, ty);
    forall l | l in f'.locals ensures PowerOfTwo(l.ty.align) {
      assert l in f.locals || l == f'.locals[|f.locals|];
    }
  }

  /** A frame that lies at an address aligned for it has every local at an address aligned for that. */
  lemma FrameAligns(r: Run, base: nat, k: nat)
    requires Inv(r) && Powered(r.f) && k < |r.f.locals| && r.f.align > 0 && base % r.f.align == 0
    ensures r.f.locals[k].ty.align > 0 && (base + r.f.locals[k].offset) % r.f.locals[k].ty.align == 0
  {
    var l := r.f.locals[k];
    assert l in r.f.locals;
    assert PowerOfTwo(l.ty.align) && l.ty.align <= r.f.align && Aligned(l);
    PowersDivide(l.ty.align, r.f.align);
    Divides(base, r.f.align, l.ty.align);
    SumDivides(base, l.offset, l.ty.align);
  }

  // --- Frames on their own ---

  /** Made by entering, leaving and making locals. */
  ghost predicate Sound(f: Frame) { exists r: Run :: r.f == f && Inv(r) }

  lemma EmptySound()
    ensures Sound(EMPTY)
  {
    hide Inv;
    StartInv();
    assert START.f == EMPTY;
  }

  lemma EnterSound(f: Frame)
    requires Sound(f)
    ensures Sound(Enter(f))
  {
    var r: Run :| r.f == f && Inv(r);
    EnterInv(r);
    assert Step(r, DoEnter).f == Enter(f);
  }

  lemma LeaveSound(f: Frame)
    requires Sound(f) && f.scopes != []
    ensures Sound(Leave(f))
  {
    var r: Run :| r.f == f && Inv(r);
    LeaveInv(r);
    assert Step(r, DoLeave).f == Leave(f);
  }

  lemma LocalSound(f: Frame, ty: Type)
    requires Sound(f)
    ensures Sound(MakeLocal(f, ty))
  {
    var r: Run :| r.f == f && Inv(r);
    LocalInv(r, ty);
    assert Step(r, DoLocal(ty)).f == MakeLocal(f, ty);
  }

  lemma FinishSound(f: Frame)
    requires Sound(f)
    ensures Sound(Finish(f))
  {
    var r: Run :| r.f == f && Inv(r);
    assert Inv(r.(f := Finish(f)));
  }

  /** Every local lies inside the frame, aligned. */
  lemma SoundFits(f: Frame, k: nat)
    requires Sound(f) && k < |f.locals|
    ensures End(f.locals[k]) <= f.size && Aligned(f.locals[k])
  {
    var r: Run :| r.f == f && Inv(r);
    assert f.locals[k] in f.locals;
  }
}
