/** Locals as bytes of a frame: code that names locals by where they lie does what code that tells them apart by
    number does, although locals share space. */
module FrameBytes {
  import opened Ir
  import S = Source
  import opened Trees
  import opened Lowering
  import opened LoweringMeaning
  import F = FrameSlots
  import R = Rounding

  /** Where each local lies. */
  type Offsets = seq<nat>

  function OffsetsOf(f: F.Frame): (a: Offsets)
    ensures |a| == |f.locals| && forall i | 0 <= i < |a| :: a[i] == f.locals[i].offset
  {
    seq(|f.locals|, i requires 0 <= i < |f.locals| => f.locals[i].offset)
  }

  // --- Code with offsets for numbers ---

  function RefAt(r: Ref, a: Offsets): Ref { if r.Local? && r.i < |a| then Local(a[r.i]) else r }

  function InstrAt(i: Instr, a: Offsets): Instr {
    match i
    case Eval(l, dst) => Eval(l, RefAt(dst, a))
    case Xor(dst, src) => Xor(RefAt(dst, a), RefAt(src, a))
    case Mov(dst, src, size) => Mov(RefAt(dst, a), RefAt(src, a), size)
    case Jmpz(c, l) => Jmpz(RefAt(c, a), l)
    case Jmpnz(c, l) => Jmpnz(RefAt(c, a), l)
    case Ret(r) => Ret(RefAt(r, a))
    case _ => i
  }

  function TreeAt(t: Tree, a: Offsets): Tree {
    match t
    case Nil => Nil
    case Op(i) => Op(InstrAt(i, a))
    case Then(x, y) => Then(TreeAt(x, a), TreeAt(y, a))
    case When(c, body, end) => When(RefAt(c, a), TreeAt(body, a), end)
    case Choose(z, c, x, y, alt, end) => Choose(z, RefAt(c, a), TreeAt(x, a), TreeAt(y, a), alt, end)
    case Loop(h, c, body, loop, end) => Loop(TreeAt(h, a), RefAt(c, a), TreeAt(body, a), loop, end)
  }

  // --- Which locals still hold what was last put into them ---

  predicate Readable(r: Ref, live: set<nat>) { r.Local? ==> r.i in live }

  predicate Writable(r: Ref, a: Offsets) { r.Local? ==> r.i < |a| }

  /** A write spoils whatever lies at the same offset. */
  function Spoiled(dst: Ref, live: set<nat>, a: Offsets): set<nat> {
    if !dst.Local? then live else
    (set j | j in live && j < |a| && dst.i < |a| && a[j] != a[dst.i]) + {dst.i}
  }

  /** Every read is of a local that nothing has spoiled. */
  predicate Safe(t: Tree, live: set<nat>, a: Offsets)
    decreases t
  {
    match t
    case Nil => true
    case Op(Eval(_, dst)) => Writable(dst, a)
    case Op(Xor(dst, src)) => Writable(dst, a) && Readable(src, live)
    case Op(Mov(dst, src, size)) => Writable(dst, a) && Readable(src, live) && size > 0
    case Op(Ret(r)) => Readable(r, live)
    case Op(i) => !HasTarget(i)
    case Then(x, y) => Safe(x, live, a) && Safe(y, After(x, live, a), a)
    case When(c, body, _) => Readable(c, live) && Safe(body, live, a)
    case Choose(_, c, x, y, _, _) => Readable(c, live) && Safe(x, live, a) && Safe(y, live, a)
    case Loop(h, c, body, _, _) => Safe(h, {}, a) && Readable(c, After(h, {}, a)) && Safe(body, {}, a)
  }

  /** What is unspoiled behind a piece of code. */
  function After(t: Tree, live: set<nat>, a: Offsets): set<nat>
    decreases t
  {
    match t
    case Op(Eval(_, dst)) => Spoiled(dst, live, a)
    case Op(Xor(dst, _)) => Spoiled(dst, live, a)
    case Op(Mov(dst, _, _)) => Spoiled(dst, live, a)
    case Then(x, y) => After(y, After(x, live, a), a)
    case When(_, body, _) => live * After(body, live, a)
    case Choose(_, _, x, y, _, _) => After(x, live, a) * After(y, live, a)
    case Loop(h, _, _, _, _) => After(h, {}, a)
    case _ => live
  }

  ghost predicate Holds(m: Temps, m': Temps, live: set<nat>, a: Offsets) {
    forall j | j in live :: j < |a| && Value(Local(j), m) == Value(Local(a[j]), m')
  }

  lemma ReadsSame(r: Ref, m: Temps, m': Temps, live: set<nat>, a: Offsets)
    requires Holds(m, m', live, a) && Readable(r, live)
    ensures Value(r, m) == Value(RefAt(r, a), m') && RetValue(r, m) == RetValue(RefAt(r, a), m')
  {}

  lemma WritesSame(dst: Ref, b: bool, m: Temps, m': Temps, live: set<nat>, a: Offsets)
    requires Holds(m, m', live, a) && Writable(dst, a)
    ensures Holds(Assign(dst, b, m), Assign(RefAt(dst, a), b, m'), Spoiled(dst, live, a), a)
  {}

  /** The procs of a program, each with its own offsets. */
  ghost predicate Placed(prog: seq<Tree>, prog': seq<Tree>, places: seq<Offsets>) {
    && |prog| == |prog'| == |places|
    && forall p | 0 <= p < |prog| :: prog'[p] == TreeAt(prog[p], places[p]) && Safe(prog[p], {}, places[p])
  }

  ghost predicate Alike(o: Outcome, o': Outcome, live: set<nat>, a: Offsets) {
    match o
    case Done(s) => o'.Done? && o'.s.tr == s.tr && Holds(s.m, o'.s.m, live, a)
    case _ => o' == o
  }

  lemma Narrower(m: Temps, m': Temps, live: set<nat>, fewer: set<nat>, a: Offsets)
    requires Holds(m, m', live, a) && fewer <= live
    ensures Holds(m, m', fewer, a)
  {}

  lemma AlikeNarrower(o: Outcome, o': Outcome, live: set<nat>, fewer: set<nat>, a: Offsets)
    requires Alike(o, o', live, a) && fewer <= live
    ensures Alike(o, o', fewer, a)
  {
    if o.Done? { Narrower(o.s.m, o'.s.m, live, fewer, a); }
  }

  /** Code that reads only what is unspoiled does the same on bytes. */
  lemma {:induction false} ExecAt(prog: seq<Tree>, prog': seq<Tree>, places: seq<Offsets>, w: Oracle, n: nat, t: Tree,
                                  live: set<nat>, a: Offsets, s: State, s': State)
    requires Placed(prog, prog', places) && Safe(t, live, a) && s.tr == s'.tr && Holds(s.m, s'.m, live, a)
    ensures Alike(Exec(prog, w, n, t, s), Exec(prog', w, n, TreeAt(t, a), s'), After(t, live, a), a)
    decreases n, t, 1
  {
    match t
    case Nil =>
    case Op(_) => OpAt(prog, prog', places, w, n, t, live, a, s, s');
    case Then(x, y) =>
      ExecAt(prog, prog', places, w, n, x, live, a, s, s');
      var o, o' := Exec(prog, w, n, x, s), Exec(prog', w, n, TreeAt(x, a), s');
      if o.Done? { ExecAt(prog, prog', places, w, n, y, After(x, live, a), a, o.s, o'.s); }
    case When(c, body, _) => WhenAt(prog, prog', places, w, n, t, live, a, s, s');
    case Choose(_, _, _, _, _, _) => ChooseAt(prog, prog', places, w, n, t, live, a, s, s');
    case Loop(_, _, _, _, _) => LoopAt(prog, prog', places, w, n, t, live, a, s, s');
  }

  lemma {:induction false} WhenAt(prog: seq<Tree>, prog': seq<Tree>, places: seq<Offsets>, w: Oracle, n: nat, t: Tree,
                                  live: set<nat>, a: Offsets, s: State, s': State)
    requires Placed(prog, prog', places) && t.When? && Safe(t, live, a) && s.tr == s'.tr && Holds(s.m, s'.m, live, a)
    ensures Alike(Exec(prog, w, n, t, s), Exec(prog', w, n, TreeAt(t, a), s'), After(t, live, a), a)
    decreases n, t, 0
  {
    ReadsSame(t.cond, s.m, s'.m, live, a);
    if Value(t.cond, s.m) {
      ExecAt(prog, prog', places, w, n, t.body, live, a, s, s');
      AlikeNarrower(Exec(prog, w, n, t.body, s), Exec(prog', w, n, TreeAt(t.body, a), s'), After(t.body, live, a), After(t, live, a), a);
    } else {
      Narrower(s.m, s'.m, live, After(t, live, a), a);
    }
    hide Holds;
  }

  lemma {:induction false} ChooseAt(prog: seq<Tree>, prog': seq<Tree>, places: seq<Offsets>, w: Oracle, n: nat, t: Tree,
                                    live: set<nat>, a: Offsets, s: State, s': State)
    requires Placed(prog, prog', places) && t.Choose? && Safe(t, live, a) && s.tr == s'.tr && Holds(s.m, s'.m, live, a)
    ensures Alike(Exec(prog, w, n, t, s), Exec(prog', w, n, TreeAt(t, a), s'), After(t, live, a), a)
    decreases n, t, 0
  {
    ReadsSame(t.cond, s.m, s'.m, live, a);
    var arm := if Value(t.cond, s.m) == t.onZero then t.thn else t.els;
    ExecAt(prog, prog', places, w, n, arm, live, a, s, s');
    AlikeNarrower(Exec(prog, w, n, arm, s), Exec(prog', w, n, TreeAt(arm, a), s'), After(arm, live, a), After(t, live, a), a);
    hide Holds;
  }

  lemma {:induction false} LoopAt(prog: seq<Tree>, prog': seq<Tree>, places: seq<Offsets>, w: Oracle, n: nat, t: Tree,
                                  live: set<nat>, a: Offsets, s: State, s': State)
    requires Placed(prog, prog', places) && t.Loop? && Safe(t, live, a) && s.tr == s'.tr && Holds(s.m, s'.m, live, a)
    ensures Alike(Exec(prog, w, n, t, s), Exec(prog', w, n, TreeAt(t, a), s'), After(t, live, a), a)
    decreases n, t, 0
  {
    if n > 0 {
      ExecAt(prog, prog', places, w, n, t.head, {}, a, s, s');
      var o, o' := Exec(prog, w, n, t.head, s), Exec(prog', w, n, TreeAt(t.head, a), s');
      if o.Done? {
        ReadsSame(t.cond, o.s.m, o'.s.m, After(t.head, {}, a), a);
        if Value(t.cond, o.s.m) {
          ExecAt(prog, prog', places, w, n, t.body, {}, a, o.s, o'.s);
          var u, u' := Exec(prog, w, n, t.body, o.s), Exec(prog', w, n, TreeAt(t.body, a), o'.s);
          if u.Done? { ExecAt(prog, prog', places, w, n - 1, t, {}, a, u.s, u'.s); }
        }
      }
    }
    hide Holds;
  }

  lemma {:induction false} OpAt(prog: seq<Tree>, prog': seq<Tree>, places: seq<Offsets>, w: Oracle, n: nat, t: Tree,
                                live: set<nat>, a: Offsets, s: State, s': State)
    requires Placed(prog, prog', places) && t.Op? && Safe(t, live, a) && s.tr == s'.tr && Holds(s.m, s'.m, live, a)
    ensures Alike(Exec(prog, w, n, t, s), Exec(prog', w, n, TreeAt(t, a), s'), After(t, live, a), a)
    decreases n, t, 0
  {
    match t.i
    case Call(p) =>
      if n > 0 && p < |prog| {
        var s0 := State(s.tr + [EvCall(p)], map[]);
        ExecAt(prog, prog', places, w, n - 1, prog[p], {}, places[p], s0, s0);
      }
    case Ret(r) => ReadsSame(r, s.m, s'.m, live, a);
    case Eval(l, dst) => WritesSame(dst, w(l, s.tr), s.m, s'.m, live, a);
    case Xor(dst, src) =>
      ReadsSame(src, s.m, s'.m, live, a);
      WritesSame(dst, !Value(src, s.m), s.m, s'.m, live, a);
    case Mov(dst, src, _) =>
      ReadsSame(src, s.m, s'.m, live, a);
      WritesSame(dst, Value(src, s.m), s.m, s'.m, live, a);
    case _ =>
  }

  // --- Renamed labels ---

  lemma {:induction false} RenameSafe(from: seq<nat>, base: nat, t: Tree, live: set<nat>, a: Offsets)
    ensures After(Rename(from, base, t), live, a) == After(t, live, a)
    ensures Safe(t, live, a) ==> Safe(Rename(from, base, t), live, a)
    decreases t
  {
    match t
    case Nil =>
    case Op(i) =>
    case Then(x, y) =>
      RenameSafe(from, base, x, live, a);
      RenameSafe(from, base, y, After(x, live, a), a);
    case When(_, body, _) => RenameSafe(from, base, body, live, a);
    case Choose(_, _, x, y, _, _) =>
      RenameSafe(from, base, x, live, a);
      RenameSafe(from, base, y, live, a);
    case Loop(h, _, body, _, _) =>
      RenameSafe(from, base, h, {}, a);
      RenameSafe(from, base, body, {}, a);
  }

  // --- Frames of conditions ---

  /** From f to g some boolean locals were made, one behind the other, and nothing else happened. */
  ghost predicate Extends(f: F.Frame, g: F.Frame) {
    && f.locals <= g.locals && g.scopes == f.scopes
    && g.cur == f.cur + (|g.locals| - |f.locals|)
    && forall j | |f.locals| <= j < |g.locals| :: g.locals[j] == F.Slot(BOOL, f.cur + (j - |f.locals|))
  }

  lemma ExtendsOne(f: F.Frame)
    ensures Extends(f, F.MakeLocal(f, BOOL))
  {
    assert R.RoundUp(f.cur, 1) == f.cur;
  }

  lemma ExtendsTwo(f: F.Frame, g: F.Frame, h: F.Frame)
    requires Extends(f, g) && Extends(g, h)
    ensures Extends(f, h)
  {}

  lemma AsRefExtends(im: Interm, env: Env)
    ensures Extends(env.frame, AsRef(im, env).env.frame)
  {
    ExtendsOne(env.frame);
  }

  /** Compiling a condition makes its locals one behind the other. */
  lemma {:induction false} ExprExtends(e: S.Expr, invert: bool, env: Env)
    ensures Extends(env.frame, LowerExpr(e, invert, env).env.frame)
    decreases e, 1
  {
    match e
    case Leaf(l) => AsRefExtends(IEval(l), env);
    case Const(_) =>
    case Not(x) => ExprExtends(x, !invert, env);
    case And(_, _) => ShortExtends(e, invert, !invert, env);
    case Or(_, _) => ShortExtends(e, invert, invert, env);
  }

  lemma {:induction false} ShortExtends(e: S.Expr, invert: bool, isAnd: bool, env: Env)
    requires e.And? || e.Or?
    ensures Extends(env.frame, LowerShort(e, invert, isAnd, env).env.frame)
    decreases e, 0
  {
    hide Extends, LowerExpr, AsRef, F.MakeLocal;
    var env0 := env.WithLocal().(nextLabel := env.nextLabel + 2);
    var lhs := LowerExpr(e.lhs, invert, env0);
    var lref := AsRef(lhs.im, lhs.env);
    ExtendsOne(env.frame);
    ExprExtends(e.lhs, invert, env0);
    AsRefExtends(lhs.im, lhs.env);
    ExprExtends(e.rhs, invert, lref.env);
    ExtendsTwo(env.frame, env0.frame, lhs.env.frame);
    ExtendsTwo(env.frame, lhs.env.frame, lref.env.frame);
    ExtendsTwo(env.frame, lref.env.frame, LowerExpr(e.rhs, invert, lref.env).env.frame);
  }

  lemma ValueExtends(e: S.Expr, env: Env)
    ensures Extends(env.frame, LowerValue(e, env).env.frame)
  {
    var c := LowerExpr(e, false, env);
    ExprExtends(e, false, env);
    AsRefExtends(c.im, c.env);
    ExtendsTwo(env.frame, c.env.frame, AsRef(c.im, c.env).env.frame);
  }

  /** The locals of one condition do not overlap. */
  lemma ConditionApart(e: S.Expr, env: Env, j: nat, k: nat)
    requires env.NextLocal() <= j < k < LowerValue(e, env).env.NextLocal()
    ensures var f := LowerValue(e, env).env.frame;
            f.locals[j].ty.size == 1 == f.locals[k].ty.size && F.Apart(f.locals[j], f.locals[k], f.cur)
  {
    ValueExtends(e, env);
  }

  // --- Conditions spoil nothing they still need ---

  ghost predicate Distinct(a: Offsets, lo: nat, hi: nat) {
    hi <= |a| && forall j, k | lo <= j < k < hi :: a[j] != a[k]
  }

  /** Safe, and of the locals from lo on none of the first n is spoiled. */
  ghost predicate Fine(t: Tree, live: set<nat>, a: Offsets, lo: nat, n: nat) {
    Safe(t, live, a) && forall j | lo <= j < n && j in live :: j in After(t, live, a)
  }

  lemma FineThen(x: Tree, y: Tree, live: set<nat>, a: Offsets, lo: nat, n: nat)
    requires Fine(x, live, a, lo, n) && Fine(y, After(x, live, a), a, lo, n)
    ensures Fine(Then(x, y), live, a, lo, n)
  {}

  lemma FineLess(t: Tree, live: set<nat>, a: Offsets, lo: nat, n: nat, fewer: nat)
    requires Fine(t, live, a, lo, n) && fewer <= n
    ensures Fine(t, live, a, lo, fewer)
  {}

  /** A readable operand from the locals lo to hi. */
  predicate Ours(r: Ref, live: set<nat>, lo: nat, hi: nat) { r.Local? ==> lo <= r.i < hi && r.i in live }

  predicate OursIm(im: Interm, live: set<nat>, lo: nat, hi: nat) {
    match im
    case IRef(r) => Ours(r, live, lo, hi)
    case IEval(_) => true
    case IXor(src) => Ours(src, live, lo, hi)
  }

  lemma OursKept(r: Ref, t: Tree, live: set<nat>, a: Offsets, lo: nat, n: nat)
    requires Ours(r, live, lo, n) && Fine(t, live, a, lo, n)
    ensures Ours(r, After(t, live, a), lo, n)
  {}

  /** Putting a value into a local of the same condition. */
  lemma WithDstFine(im: Interm, dst: nat, live: set<nat>, a: Offsets, lo: nat, hi: nat, n: nat)
    requires OursIm(im, live, lo, hi) && lo <= dst < hi && Distinct(a, lo, hi) && n <= hi
    ensures var t := Op(WithDst(im, Local(dst)));
            Fine(t, live, a, lo, n) && dst in After(t, live, a)
  {}

  lemma AsRefFine(im: Interm, env: Env, live: set<nat>, a: Offsets, lo: nat, hi: nat)
    requires OursIm(im, live, lo, env.NextLocal()) && lo <= env.NextLocal() && Distinct(a, lo, hi)
    requires AsRef(im, env).env.NextLocal() <= hi
    ensures var c := AsRef(im, env);
            Fine(c.t, live, a, lo, env.NextLocal()) && Ours(c.r, After(c.t, live, a), lo, c.env.NextLocal())
  {
    if !im.IRef? { WithDstFine(im, env.NextLocal(), live, a, lo, hi, env.NextLocal()); }
  }

  lemma {:induction false} ExprFine(e: S.Expr, invert: bool, env: Env, live: set<nat>, a: Offsets, lo: nat, hi: nat)
    requires lo <= env.NextLocal() && LowerExpr(e, invert, env).env.NextLocal() <= hi && Distinct(a, lo, hi)
    ensures var c := LowerExpr(e, invert, env);
            && env.NextLocal() <= c.env.NextLocal()
            && Fine(c.t, live, a, lo, env.NextLocal()) && OursIm(c.im, After(c.t, live, a), lo, c.env.NextLocal())
    decreases e, 1
  {
    ExprExtends(e, invert, env);
    match e
    case Leaf(l) =>
      if invert { AsRefFine(IEval(l), env, live, a, lo, hi); }
    case Const(_) =>
    case Not(x) => ExprFine(x, !invert, env, live, a, lo, hi);
    case And(_, _) => ShortFine(e, invert, !invert, env, live, a, lo, hi);
    case Or(_, _) => ShortFine(e, invert, invert, env, live, a, lo, hi);
  }

  lemma {:induction false} ShortFine(e: S.Expr, invert: bool, isAnd: bool, env: Env, live: set<nat>, a: Offsets, lo: nat, hi: nat)
    requires e.And? || e.Or?
    requires lo <= env.NextLocal() && LowerShort(e, invert, isAnd, env).env.NextLocal() <= hi && Distinct(a, lo, hi)
    ensures var c := LowerShort(e, invert, isAnd, env);
            && Fine(c.t, live, a, lo, env.NextLocal()) && OursIm(c.im, After(c.t, live, a), lo, c.env.NextLocal())
    decreases e, 0
  {
    hide Extends, LowerExpr, AsRef, F.MakeLocal, Fine, Distinct, OursIm, Ours;
    var n, res := env.NextLocal(), env.NextLocal();
    var env0 := env.WithLocal().(nextLabel := env.nextLabel + 2);
    var lhs := LowerExpr(e.lhs, invert, env0);
    var lref := AsRef(lhs.im, lhs.env);
    var rhs := LowerExpr(e.rhs, invert, lref.env);
    Counts(e, invert, env);
    ExprFine(e.lhs, invert, env0, live, a, lo, hi);
    var l1 := After(lhs.t, live, a);
    AsRefFine(lhs.im, lhs.env, l1, a, lo, hi);
    FineLess(lref.t, l1, a, lo, lhs.env.NextLocal(), n);
    FineLess(lhs.t, live, a, lo, n + 1, n);
    FineThen(lhs.t, lref.t, live, a, lo, n);
    var l2 := After(lref.t, l1, a);
    ExprFine(e.rhs, invert, lref.env, l2, a, lo, hi);
    OursWider(rhs.im, After(rhs.t, l2, a), lo, rhs.env.NextLocal(), hi);
    ChooseFine(isAnd, lref.r, rhs, res, env, l2, a, lo, hi, lref.env.NextLocal());
    var choose := Choose(isAnd, lref.r, Then(rhs.t, Op(WithDst(rhs.im, Local(res)))), Op(Mov(Local(res), lref.r, 1)),
                         env.nextLabel, env.nextLabel + 1);
    FineThen(Then(lhs.t, lref.t), choose, live, a, lo, n);
    NotedFine(env, Then(lhs.t, lref.t), choose, live, a, lo, n);
    ResOurs(res, After(choose, l2, a), lo, rhs.env.NextLocal());
  }

  lemma OursWider(im: Interm, live: set<nat>, lo: nat, hi: nat, more: nat)
    requires OursIm(im, live, lo, hi) && hi <= more
    ensures OursIm(im, live, lo, more)
  {}

  lemma ResOurs(res: nat, live: set<nat>, lo: nat, hi: nat)
    requires res in live && lo <= res < hi
    ensures OursIm(IRef(Local(res)), live, lo, hi)
  {}

  /** How the counts of locals go up in a short-circuit. */
  lemma Counts(e: S.Expr, invert: bool, env: Env)
    requires e.And? || e.Or?
    ensures var env0 := env.WithLocal().(nextLabel := env.nextLabel + 2);
            var lhs := LowerExpr(e.lhs, invert, env0);
            var lref := AsRef(lhs.im, lhs.env);
            var rhs := LowerExpr(e.rhs, invert, lref.env);
            && env0.NextLocal() == env.NextLocal() + 1 <= lhs.env.NextLocal()
            && lhs.env.NextLocal() <= lref.env.NextLocal() <= rhs.env.NextLocal()
  {
    var env0 := env.WithLocal().(nextLabel := env.nextLabel + 2);
    var lhs := LowerExpr(e.lhs, invert, env0);
    var lref := AsRef(lhs.im, lhs.env);
    ExprExtends(e.lhs, invert, env0);
    ExprExtends(e.rhs, invert, lref.env);
    hide LowerExpr;
  }

  lemma ChooseFine(isAnd: bool, c: Ref, rhs: ExprCode, res: nat, env: Env, live: set<nat>, a: Offsets, lo: nat, hi: nat, m: nat)
    requires Ours(c, live, lo, m) && Fine(rhs.t, live, a, lo, m) && OursIm(rhs.im, After(rhs.t, live, a), lo, hi)
    requires lo <= res < m <= hi && Distinct(a, lo, hi)
    ensures var t := Choose(isAnd, c, Then(rhs.t, Op(WithDst(rhs.im, Local(res)))), Op(Mov(Local(res), c, 1)),
                            env.nextLabel, env.nextLabel + 1);
            Fine(t, live, a, lo, res) && res in After(t, live, a)
  {
    var l3 := After(rhs.t, live, a);
    FineLess(rhs.t, live, a, lo, m, res);
    WithDstFine(rhs.im, res, l3, a, lo, hi, res);
    WithDstFine(IRef(c), res, live, a, lo, hi, res);
    FineThen(rhs.t, Op(WithDst(rhs.im, Local(res))), live, a, lo, res);
    hide Spoiled, Distinct;
  }

  lemma NoteFine(env: Env, live: set<nat>, a: Offsets)
    ensures Safe(Note(env), live, a) && After(Note(env), live, a) == live
  {}

  lemma NotedFine(env: Env, x: Tree, y: Tree, live: set<nat>, a: Offsets, lo: nat, n: nat)
    requires Fine(Then(x, y), live, a, lo, n)
    ensures var t := Then(Note(env), Then(x, Then(y, Note(env))));
            Fine(t, live, a, lo, n) && After(t, live, a) == After(y, After(x, live, a), a)
  {
    var l := After(x, live, a);
    NoteFine(env, live, a);
    NoteFine(env, After(y, l, a), a);
    hide Note;
    assert Safe(Then(y, Note(env)), l, a) && After(Then(y, Note(env)), l, a) == After(y, l, a);
    assert Safe(Then(x, Then(y, Note(env))), live, a) && After(Then(x, Then(y, Note(env))), live, a) == After(y, l, a);
  }

  /** A condition compiled into a frame whose locals from then on have their own offsets can be read when it is
      done. */
  lemma ValueFine(e: S.Expr, env: Env, live: set<nat>, a: Offsets)
    requires Distinct(a, env.NextLocal(), LowerValue(e, env).env.NextLocal())
    ensures var c := LowerValue(e, env); Safe(c.t, live, a) && Readable(c.r, After(c.t, live, a))
  {
    var lo, hi := env.NextLocal(), LowerValue(e, env).env.NextLocal();
    var c := LowerExpr(e, false, env);
    AsRefExtends(c.im, c.env);
    ExprFine(e, false, env, live, a, lo, hi);
    AsRefFine(c.im, c.env, After(c.t, live, a), a, lo, hi);
    hide LowerExpr;
  }

  // --- Statements ---

  /** Safe whatever is unspoiled before. */
  ghost predicate Always(t: Tree, a: Offsets) { forall live: set<nat> :: Safe(t, live, a) }

  ghost predicate ScopesSafe(scopes: seq<seq<Tree>>, a: Offsets) {
    forall i, j | 0 <= i < |scopes| && 0 <= j < |scopes[i]| :: Always(scopes[i][j], a)
  }

  /** The offsets begin with a frame's own. */
  ghost predicate LaidOut(f: F.Frame, a: Offsets) {
    |f.locals| <= |a| && forall j | 0 <= j < |f.locals| :: a[j] == f.locals[j].offset
  }

  lemma LaidOutLess(f: F.Frame, g: F.Frame, a: Offsets)
    requires LaidOut(g, a) && Grown(f, g)
    ensures LaidOut(f, a)
  {}

  lemma AlwaysPlain(ret: Tree, start: Tree, a: Offsets)
    requires (ret == Nil || ret == Op(Ret(NoRef))) && start.Op? && start.i.Label?
    ensures Always(ret, a) && Always(start, a)
  {}

  lemma AlwaysThen(x: Tree, y: Tree, a: Offsets)
    requires Always(x, a) && Always(y, a)
    ensures Always(Then(x, y), a)
  {
    forall live: set<nat> ensures Safe(Then(x, y), live, a) {
      assert Safe(x, live, a) && Safe(y, After(x, live, a), a);
    }
  }

  lemma AlwaysNoted(env: Env, x: Tree, a: Offsets)
    requires Always(x, a)
    ensures Always(Then(Note(env), Then(x, Note(env))), a)
  {
    forall live: set<nat> ensures Safe(Note(env), live, a) { NoteFine(env, live, a); }
    hide Note;
    AlwaysThen(x, Note(env), a);
    AlwaysThen(Note(env), Then(x, Note(env)), a);
  }

  lemma ValueSafe(e: S.Expr, env: Env, a: Offsets, live: set<nat>)
    requires LaidOut(LowerValue(e, env).env.frame, a)
    ensures var c := LowerValue(e, env); Safe(c.t, live, a) && Readable(c.r, After(c.t, live, a))
  {
    ValueExtends(e, env);
    hide LowerValue;
    ValueFine(e, env, live, a);
  }

  /** A condition, then something that reads it first. */
  lemma TestedSafe(e: S.Expr, env: Env, t: Tree, a: Offsets)
    requires LaidOut(LowerValue(e, env).env.frame, a)
    requires forall live: set<nat> | Readable(LowerValue(e, env).r, live) :: Safe(t, live, a)
    ensures Always(Then(LowerValue(e, env).t, t), a)
  {
    hide LowerValue, LaidOut;
    var c := LowerValue(e, env);
    forall live: set<nat> ensures Safe(Then(c.t, t), live, a) { ValueSafe(e, env, a, live); }
  }

  lemma {:induction false} ReplaySafe(ds: seq<Tree>, env: Env, a: Offsets)
    requires forall j | 0 <= j < |ds| :: Always(ds[j], a)
    ensures Always(Replay(ds, env).t, a)
    decreases |ds|
  {
    if ds != [] {
      forall live: set<nat> ensures Safe(CopyOf(ds[0], env.nextLabel), live, a) {
        assert Safe(ds[0], live, a);
        RenameSafe(LabelsOf(Flatten(ds[0])), env.nextLabel, ds[0], live, a);
      }
      var env1 := env.(nextLabel := env.nextLabel + LabelCount(ds[0]));
      hide Safe, CopyOf;
      ReplaySafe(ds[1..], env1, a);
      AlwaysThen(CopyOf(ds[0], env.nextLabel), Replay(ds[1..], env1).t, a);
    }
  }

  lemma {:induction false} ReplayAllSafe(scopes: seq<seq<Tree>>, env: Env, a: Offsets)
    requires ScopesSafe(scopes, a)
    ensures Always(ReplayAll(scopes, env).t, a)
    decreases |scopes|
  {
    if scopes != [] {
      hide Safe;
      var c := Replay(scopes[0], env);
      ReplaySafe(scopes[0], env, a);
      ReplayAllSafe(scopes[1..], c.env, a);
      AlwaysThen(c.t, ReplayAll(scopes[1..], c.env).t, a);
    }
  }

  lemma EmitDefersSafe(scopes: seq<seq<Tree>>, env: Env, a: Offsets)
    requires ScopesSafe(scopes, a)
    ensures Always(EmitDefers(scopes, env).t, a)
  {
    ReplayAllSafe(scopes, env, a);
    hide ReplayAll, ScopesSafe;
  }

  /** Some boolean locals more. */
  ghost predicate Grown(f: F.Frame, g: F.Frame) {
    f.locals <= g.locals && forall j | |f.locals| <= j < |g.locals| :: g.locals[j].ty == BOOL
  }

  lemma GrownTwice(f: F.Frame, g: F.Frame, h: F.Frame)
    requires Grown(f, g) && Grown(g, h)
    ensures Grown(f, h)
  {}

  lemma ValueGrows(e: S.Expr, env: Env)
    ensures Grown(env.frame, LowerValue(e, env).env.frame)
  {
    ValueExtends(e, env);
    hide LowerValue;
  }

  /** Compiling never takes a local away, and makes none but boolean ones. */
  lemma {:induction false} LocalsGrow(s: S.Stmt, env: Env)
    requires env.scopes != []
    ensures Grown(env.frame, Lower(s, env).env.frame)
    decreases S.Size(s), 1
  {
    hide Grown, LowerValue, LowerScope, LowerAll;
    match s
    case Drop(e) => ValueGrows(e, env);
    case List(ss) => LocalsGrowAll(ss, env);
    case Scope(b) => ScopeGrows(b, env);
    case If(_, _, _) => IfGrows(s, env);
    case While(_, _) => WhileGrows(s, env);
    case Defer(d) => LocalsGrow(d, env);
    case Return(arg) => if arg.Some? { ValueGrows(arg.value, EmitDefers(env.scopes, env).env); } else { NothingMade(env.frame); }
    case _ => NothingMade(env.frame);
  }

  lemma NothingMade(f: F.Frame)
    ensures Grown(f, f)
  {}

  lemma {:induction false} IfGrows(s: S.Stmt, env: Env)
    requires s.If? && env.scopes != []
    ensures Grown(env.frame, Lower(s, env).env.frame)
    decreases S.Size(s), 0
  {
    IfFrame(s, env);
    hide Grown, LowerValue, LowerScope, Lower;
    var env0 := env.(nextLabel := env.nextLabel + if s.els.Some? then 2 else 1);
    var cond := LowerValue(s.cond, env0);
    var body := LowerScope(s.thn, cond.env);
    ValueGrows(s.cond, env0);
    ScopeGrows(s.thn, cond.env);
    GrownTwice(env.frame, cond.env.frame, body.env.frame);
    if s.els.Some? {
      var env2 := body.env.(hasReturn := false);
      ScopeGrows(s.els.value, env2);
      GrownTwice(env.frame, body.env.frame, LowerScope(s.els.value, env2).env.frame);
    }
  }

  lemma {:induction false} WhileGrows(s: S.Stmt, env: Env)
    requires s.While? && env.scopes != []
    ensures Grown(env.frame, Lower(s, env).env.frame)
    decreases S.Size(s), 0
  {
    WhileCode(s, env);
    hide Grown, LowerValue, LowerScope, Lower;
    var env0 := env.(nextLabel := env.nextLabel + 2, hasReturn := false);
    var cond := LowerValue(s.cond, env0);
    ValueGrows(s.cond, env0);
    ScopeGrows(s.body, cond.env);
    GrownTwice(env.frame, cond.env.frame, LowerScope(s.body, cond.env).env.frame);
  }

  lemma {:induction false} WhileCode(s: S.Stmt, env: Env)
    requires s.While? && env.scopes != []
    ensures var env0 := env.(nextLabel := env.nextLabel + 2, hasReturn := false);
            var cond := LowerValue(s.cond, env0);
            var body := LowerScope(s.body, cond.env);
            var c := Lower(s, env);
            && c.t == Then(Note(env), Then(Loop(cond.t, cond.r, body.t, env.nextLabel, env.nextLabel + 1), Note(env)))
            && c.env.frame == body.env.frame && c.env.scopes == env.scopes
  {
    hide LowerValue, LowerScope, Note, LowerAll, EmitDefers, Lowering.Kept;
  }

  lemma {:induction false} LocalsGrowAll(ss: seq<S.Stmt>, env: Env)
    requires env.scopes != []
    ensures Grown(env.frame, LowerAll(ss, env).env.frame)
    decreases S.SizeAll(ss), 1
  {
    if ss == [] {
      NothingMade(env.frame);
    } else {
      hide Grown, Lower;
      var c := Lower(ss[0], env);
      LocalsGrow(ss[0], env);
      LocalsGrowAll(ss[1..], c.env);
      GrownTwice(env.frame, c.env.frame, LowerAll(ss[1..], c.env).env.frame);
    }
  }

  lemma {:induction false} ScopeGrows(b: S.Stmt, env: Env)
    requires env.scopes != []
    ensures Grown(env.frame, LowerScope(b, env).env.frame)
    decreases S.Size(b), 2
  {
    hide Lower;
    LocalsGrow(b, Entered(env));
  }

  lemma {:induction false} StmtSafe(s: S.Stmt, env: Env, a: Offsets)
    requires env.scopes != [] && ScopesSafe(env.scopes, a) && LaidOut(Lower(s, env).env.frame, a)
    ensures Always(Lower(s, env).t, a) && ScopesSafe(Lower(s, env).env.scopes, a)
    decreases S.Size(s), 1
  {
    match s
    case Drop(e) =>
      forall live: set<nat> ensures Safe(LowerValue(e, env).t, live, a) { ValueSafe(e, env, a, live); }
      hide LowerValue, ScopesSafe;
    case List(ss) => AllSafe(ss, env, a);
    case Scope(b) => ScopeSafe(b, env, a);
    case If(_, _, _) => IfSafe(s, env, a);
    case While(_, _) => WhileSafe(s, env, a);
    case Defer(d) => DeferSafe(d, env, a);
    case Return(arg) => ReturnSafe(arg, env, a);
    case _ =>
  }

  lemma {:induction false} AllSafe(ss: seq<S.Stmt>, env: Env, a: Offsets)
    requires env.scopes != [] && ScopesSafe(env.scopes, a) && LaidOut(LowerAll(ss, env).env.frame, a)
    ensures Always(LowerAll(ss, env).t, a) && ScopesSafe(LowerAll(ss, env).env.scopes, a)
    decreases S.SizeAll(ss), 1
  {
    if ss != [] {
      var c := Lower(ss[0], env);
      var rest := LowerAll(ss[1..], c.env);
      assert LowerAll(ss, env) == StmtCode(Then(c.t, rest.t), rest.env);
      hide Lower, LowerAll, Always, ScopesSafe, LaidOut;
      LocalsGrowAll(ss[1..], c.env);
      LaidOutLess(c.env.frame, rest.env.frame, a);
      StmtSafe(ss[0], env, a);
      AllSafe(ss[1..], c.env, a);
      AlwaysThen(c.t, rest.t, a);
    }
  }

  lemma {:induction false} ScopeSafe(b: S.Stmt, env: Env, a: Offsets)
    requires env.scopes != [] && ScopesSafe(env.scopes, a) && LaidOut(LowerScope(b, env).env.frame, a)
    ensures Always(LowerScope(b, env).t, a)
    decreases S.Size(b), 2
  {
    var env1 := Entered(env);
    var c := Lower(b, env1);
    var end := LeftFrame(c.env);
    var ds := EmitDefers(end.scopes[..1], end);
    assert LowerScope(b, env).t == Then(c.t, ds.t);
    assert ScopesSafe(env1.scopes, a);
    assert LaidOut(c.env.frame, a);
    hide Lower, LowerScope, LaidOut, Always, EmitDefers;
    StmtSafe(b, env1, a);
    EmitDefersSafe(end.scopes[..1], end, a);
    AlwaysThen(c.t, ds.t, a);
  }

  lemma {:induction false} IfSafe(s: S.Stmt, env: Env, a: Offsets)
    requires s.If? && env.scopes != [] && ScopesSafe(env.scopes, a) && LaidOut(Lower(s, env).env.frame, a)
    ensures Always(Lower(s, env).t, a) && ScopesSafe(Lower(s, env).env.scopes, a)
    decreases S.Size(s), 0
  {
    var env0 := env.(nextLabel := env.nextLabel + if s.els.Some? then 2 else 1);
    var cond := LowerValue(s.cond, env0);
    var body := LowerScope(s.thn, cond.env);
    var env2 := body.env.(hasReturn := false);
    var t := IfTree(s, env);
    IfCode(s, env);
    ScopeGrows(s.thn, cond.env);
    if s.els.Some? { ScopeGrows(s.els.value, env2); }
    IfFrame(s, env);
    hide Lower, LowerScope, LowerValue, ScopesSafe, LaidOut, Note;
    LaidOutLess(body.env.frame, Lower(s, env).env.frame, a);
    LaidOutLess(cond.env.frame, body.env.frame, a);
    ScopeSafe(s.thn, cond.env, a);
    if s.els.Some? { ScopeSafe(s.els.value, env2, a); }
    forall live: set<nat> | Readable(cond.r, live) ensures Safe(t, live, a) {
      assert Safe(body.t, live, a);
      if s.els.Some? { assert Safe(LowerScope(s.els.value, env2).t, live, a); }
    }
    hide IfTree, Always;
    TestedSafe(s.cond, env0, t, a);
    AlwaysNoted2(env, cond.t, t, a);
  }

  /** Where the frame of a conditional comes from. */
  lemma IfFrame(s: S.Stmt, env: Env)
    requires s.If? && env.scopes != []
    ensures var cond := LowerValue(s.cond, env.(nextLabel := env.nextLabel + if s.els.Some? then 2 else 1));
            var body := LowerScope(s.thn, cond.env);
            Lower(s, env).env.frame ==
              if s.els.None? then body.env.frame else LowerScope(s.els.value, body.env.(hasReturn := false)).env.frame
  {
    hide LowerValue, LowerScope;
  }

  lemma AlwaysNoted2(env: Env, x: Tree, y: Tree, a: Offsets)
    requires Always(Then(x, y), a)
    ensures Always(Then(Note(env), Then(x, Then(y, Note(env)))), a)
  {
    forall live: set<nat> ensures Safe(Then(Note(env), Then(x, Then(y, Note(env)))), live, a) {
      assert Safe(Then(x, y), live, a);
      NotedSafe(env, x, y, live, a);
    }
  }

  lemma NotedSafe(env: Env, x: Tree, y: Tree, live: set<nat>, a: Offsets)
    requires Safe(Then(x, y), live, a)
    ensures Safe(Then(Note(env), Then(x, Then(y, Note(env)))), live, a)
  {
    NotedFine(env, x, y, live, a, 0, 0);
  }

  lemma {:induction false} WhileSafe(s: S.Stmt, env: Env, a: Offsets)
    requires s.While? && env.scopes != [] && ScopesSafe(env.scopes, a) && LaidOut(Lower(s, env).env.frame, a)
    ensures Always(Lower(s, env).t, a) && ScopesSafe(Lower(s, env).env.scopes, a)
    decreases S.Size(s), 0
  {
    var env0 := env.(nextLabel := env.nextLabel + 2, hasReturn := false);
    var cond := LowerValue(s.cond, env0);
    hide Lower, LowerScope, LowerValue, ScopesSafe, LaidOut, Note;
    var body := LowerScope(s.body, cond.env);
    var t := Loop(cond.t, cond.r, body.t, env.nextLabel, env.nextLabel + 1);
    WhileCode(s, env);
    ScopeGrows(s.body, cond.env);
    LaidOutLess(cond.env.frame, body.env.frame, a);
    ValueSafe(s.cond, env0, a, {});
    ScopeSafe(s.body, cond.env, a);
    assert Safe(body.t, {}, a);
    forall live: set<nat> ensures Safe(t, live, a) {}
    hide Safe;
    AlwaysNoted(env, t, a);
  }

  lemma {:induction false} DeferSafe(d: S.Stmt, env: Env, a: Offsets)
    requires env.scopes != [] && ScopesSafe(env.scopes, a) && LaidOut(Lower(S.Defer(d), env).env.frame, a)
    ensures Always(Lower(S.Defer(d), env).t, a) && ScopesSafe(Lower(S.Defer(d), env).env.scopes, a)
    decreases S.Size(d), 2
  {
    var c := Lower(d, env);
    var t := Then(Note(env), Then(c.t, Note(env)));
    assert Lower(S.Defer(d), env) == StmtCode(Nil, c.env.(scopes := [[t] + c.env.scopes[0]] + c.env.scopes[1..]));
    StmtSafe(d, env, a);
    hide Lower, LaidOut;
    AlwaysNoted(env, c.t, a);
    PushedSafe(c.env.scopes, t, a);
  }

  lemma PushedSafe(scopes: seq<seq<Tree>>, t: Tree, a: Offsets)
    requires scopes != [] && ScopesSafe(scopes, a) && Always(t, a)
    ensures ScopesSafe([[t] + scopes[0]] + scopes[1..], a)
  {
    hide Always;
  }

  lemma ReturnSafe(arg: Option<S.Expr>, env: Env, a: Offsets)
    requires env.scopes != [] && ScopesSafe(env.scopes, a) && LaidOut(Lower(S.Return(arg), env).env.frame, a)
    ensures Always(Lower(S.Return(arg), env).t, a) && ScopesSafe(Lower(S.Return(arg), env).env.scopes, a)
  {
    var ds := EmitDefers(env.scopes, env);
    EmitDefersSafe(env.scopes, env, a);
    hide ScopesSafe, LowerValue, EmitDefers;
    if arg.None? {
      AlwaysThen(ds.t, Op(Ret(NoRef)), a);
    } else {
      var v := LowerValue(arg.value, ds.env);
      TestedSafe(arg.value, ds.env, Op(Ret(v.r)), a);
      AlwaysThen(ds.t, Then(v.t, Op(Ret(v.r))), a);
    }
  }

  lemma ProcLaidOut(body: S.Stmt, first: nat, logging: bool)
    ensures var a := OffsetsOf(LowerProc(body, first, logging).env.frame);
            LaidOut(Lower(body, BodyEnv(first, logging)).env.frame, a) && ScopesSafe(BodyEnv(first, logging).scopes, a)
  {
    hide Lower;
  }

  lemma ProcSafe(body: S.Stmt, first: nat, logging: bool)
    ensures var c := LowerProc(body, first, logging); Safe(c.t, {}, OffsetsOf(c.env.frame))
  {
    hide Lower, EmitDefers, OffsetsOf, Safe;
    var c := Lower(body, BodyEnv(first, logging));
    var a := OffsetsOf(LowerProc(body, first, logging).env.frame);
    var ds := EmitDefers(c.env.scopes, Finished(c.env));
    var ret := if ds.env.hasReturn then Nil else Op(Ret(NoRef));
    AlwaysPlain(ret, Op(Label(first)), a);
    ProcLaidOut(body, first, logging);
    StmtSafe(body, BodyEnv(first, logging), a);
    EmitDefersSafe(c.env.scopes, Finished(c.env), a);
    AlwaysThen(ds.t, ret, a);
    AlwaysThen(c.t, Then(ds.t, ret), a);
    AlwaysThen(Op(Label(first)), Then(c.t, Then(ds.t, ret)), a);
  }

  // --- Whole programs ---

  /** Every proc's frame when it has been compiled. */
  ghost predicate Framed(g: Program, frames: seq<F.Frame>) {
    && |frames| == |g.src| == |g.starts|
    && forall p | 0 <= p < |frames| :: frames[p] == LowerProc(g.src[p], g.starts[p], g.logging).env.frame
  }

  /** The program with every local named by its offset in its proc's frame. */
  function OnBytes(trees: seq<Tree>, frames: seq<F.Frame>): (r: seq<Tree>)
    requires |trees| == |frames|
    ensures |r| == |trees| && forall p | 0 <= p < |r| :: r[p] == TreeAt(trees[p], OffsetsOf(frames[p]))
  {
    seq(|trees|, p requires 0 <= p < |trees| => TreeAt(trees[p], OffsetsOf(frames[p])))
  }

  /** Locals share space, and still each proc does what its source does: no temporary is overwritten while it is
      needed. */
  lemma ProcOnBytes(g: Program, frames: seq<F.Frame>, w: Oracle, n: nat, p: nat, tr: Trace)
    requires g.Compiled() && Framed(g, frames) && p < |g.src|
    ensures Same(Exec(OnBytes(g.trees, frames), w, n, OnBytes(g.trees, frames)[p], State(tr, map[])), S.RunProc(g.src, w, n, p, tr))
  {
    LowerProcRight(g, w, n, p, tr);
    var places := seq(|frames|, q requires 0 <= q < |frames| => OffsetsOf(frames[q]));
    forall q | 0 <= q < |g.trees| ensures Safe(g.trees[q], {}, places[q]) { ProcSafe(g.src[q], g.starts[q], g.logging); }
    var s := State(tr, map[]);
    hide OffsetsOf, LowerProc, S.RunProc, Safe;
    ExecAt(g.trees, OnBytes(g.trees, frames), places, w, n, g.trees[p], {}, places[p], s, s);
  }

  // --- Room ---

  /** The instruction names this local. */
  predicate Names(i: Instr, k: nat) {
    match i
    case Eval(_, dst) => dst == Local(k)
    case Xor(dst, src) => dst == Local(k) || src == Local(k)
    case Mov(dst, src, _) => dst == Local(k) || src == Local(k)
    case Jmpz(c, _) => c == Local(k)
    case Jmpnz(c, _) => c == Local(k)
    case Ret(r) => r == Local(k)
    case _ => false
  }

  /** Every local the code names has a byte of its own inside the frame. */
  ghost predicate Roomy(f: F.Frame, code: seq<Instr>) {
    forall k, i: nat | 0 <= k < |code| && Names(code[k], i) ::
      i < |f.locals| && f.locals[i].ty.size == 1 && f.locals[i].offset + 1 <= f.size
  }

  ghost predicate Within(code: seq<Instr>, n: nat) { forall k, i: nat | 0 <= k < |code| && Names(code[k], i) :: i < n }

  lemma WithinConcat(a: seq<Instr>, b: seq<Instr>, n: nat)
    requires Within(a, n) && Within(b, n)
    ensures Within(a + b, n)
  {
    hide Names;
  }

  lemma WithinFive(a: seq<Instr>, b: seq<Instr>, c: seq<Instr>, d: seq<Instr>, e: seq<Instr>, n: nat)
    requires Within(a, n) && Within(b, n) && Within(c, n) && Within(d, n) && Within(e, n)
    ensures Within(a + b + c + d + e, n)
  {
    WithinConcat(a, b, n);
    WithinConcat(a + b, c, n);
    WithinConcat(a + b + c, d, n);
    WithinConcat(a + b + c + d, e, n);
  }

  /** Safe code names only locals that have an offset. */
  lemma {:induction false} SafeWithin(t: Tree, live: set<nat>, a: Offsets)
    requires Safe(t, live, a) && forall j | j in live :: j < |a|
    ensures Within(Flatten(t), |a|) && forall j | j in After(t, live, a) :: j < |a|
    decreases t
  {
    match t
    case Nil =>
    case Op(i) =>
    case Then(x, y) =>
      SafeWithin(x, live, a);
      SafeWithin(y, After(x, live, a), a);
      WithinConcat(Flatten(x), Flatten(y), |a|);
    case When(c, body, end) =>
      SafeWithin(body, live, a);
      WithinFive([Jmpz(c, end)], Flatten(body), [Jmp(end), Label(end)], [], [], |a|);
      assert Flatten(t) == [Jmpz(c, end)] + Flatten(body) + [Jmp(end), Label(end)] + [] + [];
    case Choose(z, c, x, y, alt, end) =>
      SafeWithin(x, live, a);
      SafeWithin(y, live, a);
      WithinFive([CondJump(z, c, alt)], Flatten(x), [Jmp(end), Label(alt)], Flatten(y), [Jmp(end), Label(end)], |a|);
    case Loop(h, c, body, loop, end) =>
      SafeWithin(h, {}, a);
      SafeWithin(body, {}, a);
      WithinFive([Jmp(loop), Label(loop)], Flatten(h), [Jmpz(c, end)], Flatten(body), [Jmp(loop), Label(end)], |a|);
  }

  /** A finished proc's frame has room for every local its code names. */
  lemma ProcRoomy(body: S.Stmt, first: nat, logging: bool)
    requires F.Sound(LowerProc(body, first, logging).env.frame)
    ensures var c := LowerProc(body, first, logging); Roomy(c.env.frame, Flatten(c.t))
  {
    hide *;
    var c := LowerProc(body, first, logging);
    ProcSafe(body, first, logging);
    SafeWithin(c.t, {}, OffsetsOf(c.env.frame));
    ProcBooleans(body, first, logging);
    WithinRoomy(c.env.frame, Flatten(c.t));
  }

  lemma ProcBooleans(body: S.Stmt, first: nat, logging: bool)
    ensures forall l | l in LowerProc(body, first, logging).env.frame.locals :: l.ty == BOOL
  {
    LocalsGrow(body, BodyEnv(first, logging));
    hide Lower;
  }

  lemma WithinRoomy(f: F.Frame, code: seq<Instr>)
    requires F.Sound(f) && Within(code, |f.locals|) && forall l | l in f.locals :: l.ty == BOOL
    ensures Roomy(f, code)
  {
    hide Names, F.Sound;
    forall k, i: nat | 0 <= k < |code| && Names(code[k], i)
      ensures i < |f.locals| && f.locals[i].ty.size == 1 && f.locals[i].offset + 1 <= f.size
    {
      F.SoundFits(f, i);
    }
  }
}
