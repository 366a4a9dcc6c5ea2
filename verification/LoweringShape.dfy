/** Shape of everything the front end emits: labels placed once, jump targets placed, nothing but a label
    after an unconditional jump, and no way to run off the end of a proc. */
module LoweringShape {
  import opened Ir
  import S = Source
  import opened Trees
  import opened Lowering
  import opened Machine

  // --- Fresh labels ---

  /** How often a tree places a label. */
  function Count(t: Tree, l: nat): nat {
    match t
    case Nil => 0
    case Op(i) => if i == Label(l) then 1 else 0
    case Then(a, b) => Count(a, l) + Count(b, l)
    case When(_, body, end) => Count(body, l) + (if l == end then 1 else 0)
    case Choose(_, _, x, y, alt, end) =>
      Count(x, l) + Count(y, l) + (if l == alt then 1 else 0) + (if l == end then 1 else 0)
    case Loop(h, _, body, loop, end) =>
      Count(h, l) + Count(body, l) + (if l == loop then 1 else 0) + (if l == end then 1 else 0)
  }

  ghost predicate NoDup(t: Tree) { forall l: nat :: Count(t, l) <= 1 }

  /** Distinct labels, all created while the label counter went from lo to hi. */
  ghost predicate Fresh(t: Tree, lo: nat, hi: nat) {
    lo <= hi && forall l: nat :: Count(t, l) <= if lo <= l < hi then 1 else 0
  }

  /** The labels a tree places, in order. */
  function Placed(t: Tree): seq<nat> {
    match t
    case Nil => []
    case Op(i) => if i.Label? then [i.id] else []
    case Then(a, b) => Placed(a) + Placed(b)
    case When(_, body, end) => Placed(body) + [end]
    case Choose(_, _, x, y, alt, end) => Placed(x) + [alt] + Placed(y) + [end]
    case Loop(h, _, body, loop, end) => [loop] + Placed(h) + Placed(body) + [end]
  }

  lemma LabelsOfFive(a: seq<Instr>, b: seq<Instr>, c: seq<Instr>, d: seq<Instr>, e: seq<Instr>)
    ensures LabelsOf(a + b + c + d + e) == LabelsOf(a) + LabelsOf(b) + LabelsOf(c) + LabelsOf(d) + LabelsOf(e)
  {
    LabelsOfConcat(a, b);
    LabelsOfConcat(a + b, c);
    LabelsOfConcat(a + b + c, d);
    LabelsOfConcat(a + b + c + d, e);
  }

  lemma LabelsOfOne(i: Instr)
    ensures LabelsOf([i]) == if i.Label? then [i.id] else []
  {
    assert [i][1..] == [];
  }

  lemma LabelsOfPair(i: Instr, l: nat)
    requires !i.Label?
    ensures LabelsOf([i, Label(l)]) == [l] && LabelsOf([i]) == []
  {
    assert [i, Label(l)][1..] == [Label(l)];
    LabelsOfOne(Label(l));
    LabelsOfOne(i);
  }

  lemma {:induction false} PlacedIsFlat(t: Tree)
    ensures LabelsOf(Flatten(t)) == Placed(t)
  {
    match t
    case Nil =>
    case Op(i) => LabelsOfOne(i);
    case Then(a, b) =>
      PlacedIsFlat(a);
      PlacedIsFlat(b);
      LabelsOfConcat(Flatten(a), Flatten(b));
    case When(c, body, end) =>
      PlacedIsFlat(body);
      WhenPlaced(c, Flatten(body), end);
      hide LabelsOf;
    case Choose(z, c, x, y, alt, end) =>
      PlacedIsFlat(x);
      PlacedIsFlat(y);
      ChoosePlaced(CondJump(z, c, alt), Flatten(x), Flatten(y), alt, end);
      hide LabelsOf;
    case Loop(h, c, body, loop, end) =>
      PlacedIsFlat(h);
      PlacedIsFlat(body);
      LoopPlaced(c, Flatten(h), Flatten(body), loop, end);
      hide LabelsOf;
  }

  lemma WhenPlaced(c: Ref, body: seq<Instr>, end: nat)
    ensures LabelsOf([Jmpz(c, end)] + body + [Jmp(end), Label(end)]) == LabelsOf(body) + [end]
  {
    LabelsOfConcat([Jmpz(c, end)] + body, [Jmp(end), Label(end)]);
    LabelsOfConcat([Jmpz(c, end)], body);
    LabelsOfPair(Jmpz(c, end), end);
    LabelsOfPair(Jmp(end), end);
    hide LabelsOf;
    assert [] + LabelsOf(body) == LabelsOf(body);
  }

  lemma ChoosePlaced(jump: Instr, x: seq<Instr>, y: seq<Instr>, alt: nat, end: nat)
    requires !jump.Label?
    ensures LabelsOf([jump] + x + [Jmp(end), Label(alt)] + y + [Jmp(end), Label(end)]) ==
            LabelsOf(x) + [alt] + LabelsOf(y) + [end]
  {
    LabelsOfFive([jump], x, [Jmp(end), Label(alt)], y, [Jmp(end), Label(end)]);
    LabelsOfPair(jump, alt);
    LabelsOfPair(Jmp(end), alt);
    LabelsOfPair(Jmp(end), end);
    hide LabelsOf;
    assert [] + LabelsOf(x) == LabelsOf(x);
  }

  lemma LoopPlaced(c: Ref, h: seq<Instr>, body: seq<Instr>, loop: nat, end: nat)
    ensures LabelsOf([Jmp(loop), Label(loop)] + h + [Jmpz(c, end)] + body + [Jmp(loop), Label(end)]) ==
            [loop] + LabelsOf(h) + LabelsOf(body) + [end]
  {
    LabelsOfFive([Jmp(loop), Label(loop)], h, [Jmpz(c, end)], body, [Jmp(loop), Label(end)]);
    LabelsOfPair(Jmp(loop), loop);
    LabelsOfPair(Jmpz(c, end), end);
    LabelsOfPair(Jmp(loop), end);
    hide LabelsOf;
    assert [loop] + LabelsOf(h) + [] == [loop] + LabelsOf(h);
  }

  /** How often a label is in a list. */
  function Occurs(ls: seq<nat>, l: nat): nat { multiset(ls)[l] }

  lemma OccurConcat(a: seq<nat>, b: seq<nat>, l: nat)
    ensures Occurs(a + b, l) == Occurs(a, l) + Occurs(b, l)
  {
    assert multiset(a + b) == multiset(a) + multiset(b);
  }

  lemma OccurOne(x: nat, l: nat)
    ensures Occurs([x], l) == if x == l then 1 else 0
  {}

  lemma OccurNone(l: nat)
    ensures Occurs([], l) == 0
  {}

  lemma OccurFour(a: seq<nat>, b: seq<nat>, c: seq<nat>, d: seq<nat>, l: nat)
    ensures Occurs(a + b + c + d, l) == Occurs(a, l) + Occurs(b, l) + Occurs(c, l) + Occurs(d, l)
  {
    hide Occurs;
    OccurConcat(a, b, l);
    OccurConcat(a + b, c, l);
    OccurConcat(a + b + c, d, l);
  }

  lemma {:induction false} CountIsPlaced(t: Tree, l: nat)
    ensures Occurs(Placed(t), l) == Count(t, l)
  {
    hide Occurs;
    match t
    case Nil => OccurNone(l);
    case Op(i) =>
      if i.Label? { OccurOne(i.id, l); } else { OccurNone(l); }
    case Then(a, b) =>
      CountIsPlaced(a, l);
      CountIsPlaced(b, l);
      OccurConcat(Placed(a), Placed(b), l);
    case When(_, body, end) =>
      CountIsPlaced(body, l);
      OccurConcat(Placed(body), [end], l);
      OccurOne(end, l);
    case Choose(_, _, x, y, alt, end) =>
      CountIsPlaced(x, l);
      CountIsPlaced(y, l);
      OccurChoose(Placed(x), alt, Placed(y), end, l);
    case Loop(h, _, body, loop, end) =>
      CountIsPlaced(h, l);
      CountIsPlaced(body, l);
      OccurLoop(loop, Placed(h), Placed(body), end, l);
  }

  lemma OccurChoose(x: seq<nat>, alt: nat, y: seq<nat>, end: nat, l: nat)
    ensures Occurs(x + [alt] + y + [end], l) ==
            Occurs(x, l) + Occurs(y, l) + (if alt == l then 1 else 0) + (if end == l then 1 else 0)
  {
    hide Occurs;
    OccurFour(x, [alt], y, [end], l);
    OccurOne(alt, l);
    OccurOne(end, l);
  }

  lemma OccurLoop(loop: nat, h: seq<nat>, body: seq<nat>, end: nat, l: nat)
    ensures Occurs([loop] + h + body + [end], l) ==
            Occurs(h, l) + Occurs(body, l) + (if loop == l then 1 else 0) + (if end == l then 1 else 0)
  {
    hide Occurs;
    OccurFour([loop], h, body, [end], l);
    OccurOne(loop, l);
    OccurOne(end, l);
  }

  lemma OccursTwice(ls: seq<nat>, i: nat, j: nat)
    requires i < j < |ls| && ls[i] == ls[j]
    ensures Occurs(ls, ls[i]) >= 2
  {
    var a, b, x := ls[..j], ls[j..], ls[i];
    assert ls == a + b;
    OccurConcat(a, b, x);
    assert a[i] == x && x in multiset(a);
    assert b[0] == x && x in multiset(b);
  }

  /** Equal labels at two positions would be counted twice. */
  lemma PlacedApart(t: Tree, i: nat, j: nat)
    requires NoDup(t) && i < j < |Placed(t)|
    ensures Placed(t)[i] != Placed(t)[j]
  {
    var ls := Placed(t);
    CountIsPlaced(t, ls[i]);
    hide Placed, Count;
    if ls[i] == ls[j] { OccursTwice(ls, i, j); }
  }

  // --- Copies ---

  lemma {:induction false} LabelsOfRename(from: seq<nat>, base: nat, code: seq<Instr>)
    ensures |LabelsOf(RenameCode(from, base, code))| == |LabelsOf(code)|
    ensures forall k | 0 <= k < |LabelsOf(code)| ::
              LabelsOf(RenameCode(from, base, code))[k] == Renamed(from, base, LabelsOf(code)[k])
  {
    if code != [] {
      var renamed := RenameCode(from, base, code);
      assert renamed[1..] == RenameCode(from, base, code[1..]);
      LabelsOfRename(from, base, code[1..]);
      LabelsOfHead(code);
      LabelsOfHead(renamed);
      assert renamed[0] == RenameInstr(from, base, code[0]);
      hide LabelsOf, Renamed, RenameCode;
    }
  }

  lemma LabelsOfHead(code: seq<Instr>)
    requires code != []
    ensures LabelsOf(code) == if code[0].Label? then [code[0].id] + LabelsOf(code[1..]) else LabelsOf(code[1..])
  {}

  lemma {:induction false} RunCount(ls: seq<nat>, base: nat, l: nat)
    requires forall k | 0 <= k < |ls| :: ls[k] == base + k
    ensures Occurs(ls, l) == if base <= l < base + |ls| then 1 else 0
  {
    if ls != [] {
      var init := ls[..|ls| - 1];
      RunCount(init, base, l);
      assert ls == init + [ls[|ls| - 1]];
    }
  }

  /** The labels of a copy are exactly the next ones, each once. */
  lemma CopyFresh(t: Tree, base: nat)
    requires NoDup(t)
    ensures forall l: nat :: Count(Rename(Placed(t), base, t), l) == if base <= l < base + |Placed(t)| then 1 else 0
  {
    var from := Placed(t);
    var copy := Rename(from, base, t);
    FlattenRename(from, base, t);
    LabelsOfRename(from, base, Flatten(t));
    PlacedIsFlat(t);
    PlacedIsFlat(copy);
    forall k | 0 <= k < |Placed(copy)| ensures Placed(copy)[k] == base + k {
      var j := IndexOf(from, from[k]);
      assert from[k] in from;
      if j < k { PlacedApart(t, j, k); }
      if k < j { PlacedApart(t, k, j); }
    }
    forall l: nat ensures Count(copy, l) == if base <= l < base + |from| then 1 else 0 {
      CountIsPlaced(copy, l);
      RunCount(Placed(copy), base, l);
    }
  }

  // --- Well-formedness of emitted trees ---

  lemma {:induction false} RenameWf(from: seq<nat>, base: nat, t: Tree, procs: nat)
    requires WfTree(t, procs)
    ensures WfTree(Rename(from, base, t), procs)
  {
    match t
    case Nil =>
    case Op(i) =>
    case Then(a, b) => RenameWf(from, base, a, procs); RenameWf(from, base, b, procs);
    case When(_, body, _) => RenameWf(from, base, body, procs);
    case Choose(_, _, x, y, _, _) => RenameWf(from, base, x, procs); RenameWf(from, base, y, procs);
    case Loop(h, _, body, _, _) => RenameWf(from, base, h, procs); RenameWf(from, base, body, procs);
  }

  ghost predicate GoodTree(t: Tree, procs: nat) { NoDup(t) && WfTree(t, procs) }

  /** Every recorded defer is well formed. */
  ghost predicate GoodScopes(scopes: seq<seq<Tree>>, procs: nat) {
    forall i, j | 0 <= i < |scopes| && 0 <= j < |scopes[i]| :: GoodTree(scopes[i][j], procs)
  }

  /** Code emitted while the label counter went from lo to hi. */
  ghost predicate GoodCode(t: Tree, lo: nat, hi: nat, procs: nat) {
    Fresh(t, lo, hi) && WfTree(t, procs)
  }

  lemma GoodThen(a: Tree, b: Tree, lo: nat, mid: nat, hi: nat, procs: nat)
    requires GoodCode(a, lo, mid, procs) && GoodCode(b, mid, hi, procs)
    ensures GoodCode(Then(a, b), lo, hi, procs)
  {
  }

  lemma GoodNoted(env: Env, a: Tree, lo: nat, hi: nat, procs: nat)
    requires GoodCode(a, lo, hi, procs)
    ensures GoodCode(Then(Note(env), Then(a, Note(env))), lo, hi, procs)
  {
    forall l: nat ensures Count(Then(Note(env), Then(a, Note(env))), l) == Count(a, l) {
      assert Count(Then(a, Note(env)), l) == Count(a, l);
    }
  }

  lemma GoodWhen(c: Tree, t: Tree, lo: nat, mid: nat, hi: nat, procs: nat)
    requires t.When? && t.end == lo
    requires GoodCode(c, lo + 1, mid, procs) && GoodCode(t.body, mid, hi, procs)
    ensures GoodCode(Then(c, t), lo, hi, procs)
  {
    forall l: nat ensures Count(Then(c, t), l) == Count(c, l) + Count(t.body, l) + (if l == lo then 1 else 0) {
      assert Count(t, l) == Count(t.body, l) + (if l == lo then 1 else 0);
    }
  }

  lemma GoodChoose(c: Tree, t: Tree, lo: nat, m1: nat, m2: nat, hi: nat, procs: nat)
    requires t.Choose? && t.alt != t.end && lo <= t.alt < lo + 2 && lo <= t.end < lo + 2
    requires GoodCode(c, lo + 2, m1, procs) && GoodCode(t.thn, m1, m2, procs) && GoodCode(t.els, m2, hi, procs)
    ensures GoodCode(Then(c, t), lo, hi, procs)
  {
    forall l: nat
      ensures Count(Then(c, t), l) == Count(c, l) + Count(t.thn, l) + Count(t.els, l) + (if lo <= l < lo + 2 then 1 else 0)
    {
      assert Count(Then(c, t), l) == Count(c, l) + Count(t, l);
    }
  }

  lemma GoodNoted2(env: Env, a: Tree, b: Tree, lo: nat, hi: nat, procs: nat)
    requires GoodCode(Then(a, b), lo, hi, procs)
    ensures GoodCode(Then(Note(env), Then(a, Then(b, Note(env)))), lo, hi, procs)
  {
    forall l: nat ensures Count(Then(Note(env), Then(a, Then(b, Note(env)))), l) == Count(Then(a, b), l) {
      assert Count(Then(a, Then(b, Note(env))), l) == Count(a, l) + Count(Then(b, Note(env)), l);
    }
  }

  lemma GoodPlain(t: Tree, lo: nat, procs: nat)
    requires t.Nil? || (t.Op? && !t.i.Label? && WfTree(t, procs))
    ensures GoodCode(t, lo, lo, procs)
  {}

  lemma CopyGood(t: Tree, base: nat, procs: nat)
    requires GoodTree(t, procs)
    ensures GoodCode(CopyOf(t, base), base, base + LabelCount(t), procs)
  {
    PlacedIsFlat(t);
    CopyFresh(t, base);
    RenameWf(Placed(t), base, t, procs);
  }

  lemma {:induction false} ReplayGood(ds: seq<Tree>, env: Env, procs: nat)
    requires forall j | 0 <= j < |ds| :: GoodTree(ds[j], procs)
    ensures GoodCode(Replay(ds, env).t, env.nextLabel, Replay(ds, env).env.nextLabel, procs)
    decreases |ds|
  {
    if ds != [] {
      var env1 := env.(nextLabel := env.nextLabel + LabelCount(ds[0]));
      CopyGood(ds[0], env.nextLabel, procs);
      ReplayGood(ds[1..], env1, procs);
      GoodThen(CopyOf(ds[0], env.nextLabel), Replay(ds[1..], env1).t,
               env.nextLabel, env1.nextLabel, Replay(ds, env).env.nextLabel, procs);
    }
  }

  lemma {:induction false} ReplayAllGood(scopes: seq<seq<Tree>>, env: Env, procs: nat)
    requires GoodScopes(scopes, procs)
    ensures GoodCode(ReplayAll(scopes, env).t, env.nextLabel, ReplayAll(scopes, env).env.nextLabel, procs)
    decreases |scopes|
  {
    if scopes != [] {
      ReplayGood(scopes[0], env, procs);
      var c := Replay(scopes[0], env);
      ReplayAllGood(scopes[1..], c.env, procs);
      GoodThen(c.t, ReplayAll(scopes[1..], c.env).t, env.nextLabel, c.env.nextLabel,
               ReplayAll(scopes, env).env.nextLabel, procs);
    }
  }

  lemma EmitDefersGood(scopes: seq<seq<Tree>>, env: Env, procs: nat)
    requires GoodScopes(scopes, procs)
    ensures GoodCode(EmitDefers(scopes, env).t, env.nextLabel, EmitDefers(scopes, env).env.nextLabel, procs)
  {
    ReplayAllGood(scopes, env, procs);
  }

  lemma {:induction false} LowerExprGood(e: S.Expr, invert: bool, env: Env, procs: nat)
    ensures var c := LowerExpr(e, invert, env); GoodCode(c.t, env.nextLabel, c.env.nextLabel, procs)
    decreases e, 1
  {
    match e
    case Leaf(l) =>
      GoodPlain(Nil, env.nextLabel, procs);
      GoodPlain(AsRef(IEval(l), env).t, env.nextLabel, procs);
    case Const(b) =>
      GoodPlain(Nil, env.nextLabel, procs);
    case Not(x) => LowerExprGood(x, !invert, env, procs);
    case And(_, _) => LowerShortGood(e, invert, !invert, env, procs);
    case Or(_, _) => LowerShortGood(e, invert, invert, env, procs);
  }

  lemma {:induction false} LowerShortGood(e: S.Expr, invert: bool, isAnd: bool, env: Env, procs: nat)
    requires e.And? || e.Or?
    ensures var c := LowerShort(e, invert, isAnd, env); GoodCode(c.t, env.nextLabel, c.env.nextLabel, procs)
    decreases e, 0
  {
    var lo := env.nextLabel;
    var env0 := env.WithLocal().(nextLabel := lo + 2);
    var res := Local(env.NextLocal());
    var lhs := LowerExpr(e.lhs, invert, env0);
    LowerExprGood(e.lhs, invert, env0, procs);
    var lref := AsRef(lhs.im, lhs.env);
    var mid := lhs.env.nextLabel;
    var rhs := LowerExpr(e.rhs, invert, lref.env);
    LowerExprGood(e.rhs, invert, lref.env, procs);
    var hi := rhs.env.nextLabel;
    var left, right, last := Then(lhs.t, lref.t), Then(rhs.t, Op(WithDst(rhs.im, res))), Op(Mov(res, lref.r, 1));
    GoodPlain(lref.t, mid, procs);
    GoodThen(lhs.t, lref.t, lo + 2, mid, mid, procs);
    GoodPlain(right.b, hi, procs);
    GoodThen(rhs.t, right.b, mid, hi, hi, procs);
    var choose := Choose(isAnd, lref.r, right, last, lo, lo + 1);
    GoodPlain(last, hi, procs);
    GoodChoose(left, choose, lo, mid, hi, hi, procs);
    GoodNoted2(env, left, choose, lo, hi, procs);
  }

  lemma LowerValueGood(e: S.Expr, env: Env, procs: nat)
    ensures var c := LowerValue(e, env); GoodCode(c.t, env.nextLabel, c.env.nextLabel, procs)
  {
    LowerExprGood(e, false, env, procs);
    var c := LowerExpr(e, false, env);
    var r := AsRef(c.im, c.env);
    GoodPlain(r.t, c.env.nextLabel, procs);
    GoodThen(c.t, r.t, env.nextLabel, c.env.nextLabel, c.env.nextLabel, procs);
  }

  /** What every lowered statement leaves behind. */
  ghost predicate Good(c: StmtCode, env: Env, procs: nat) {
    && GoodCode(c.t, env.nextLabel, c.env.nextLabel, procs)
    && GoodScopes(c.env.scopes, procs)
  }

  lemma {:induction false} LowerGood(s: S.Stmt, env: Env, procs: nat)
    requires env.scopes != [] && S.Wf(s, procs) && GoodScopes(env.scopes, procs)
    ensures Good(Lower(s, env), env, procs)
    decreases S.Size(s), 1
  {
    match s
    case Act(a) => GoodPlain(Op(Do(a)), env.nextLabel, procs);
    case ActWith(a, sym) => GoodPlain(Op(DoWith(a, sym)), env.nextLabel, procs);
    case Ext(sym) => GoodPlain(Op(Ir.Ext(sym)), env.nextLabel, procs);
    case Invoke(p) => GoodPlain(Op(Call(p)), env.nextLabel, procs);
    case Drop(e) => LowerValueGood(e, env, procs);
    case List(ss) => LowerAllGood(ss, env, procs);
    case Scope(b) => LowerScopeGood(b, env, procs);
    case If(_, _, _) => LowerIfGood(s, env, procs);
    case While(_, _) => LowerWhileGood(s, env, procs);
    case Defer(d) =>
      LowerGood(d, env, procs);
      var c := Lower(d, env);
      GoodNoted(env, c.t, env.nextLabel, c.env.nextLabel, procs);
      var t := Then(Note(env), Then(c.t, Note(env)));
      assert GoodTree(t, procs);
      GoodPlain(Nil, env.nextLabel, procs);
      assert GoodCode(Nil, env.nextLabel, c.env.nextLabel, procs);
    case Return(arg) => LowerReturnGood(arg, env, procs);
  }

  lemma LowerReturnGood(arg: Option<S.Expr>, env: Env, procs: nat)
    requires env.scopes != [] && GoodScopes(env.scopes, procs)
    ensures Good(Lower(S.Return(arg), env), env, procs)
  {
    EmitDefersGood(env.scopes, env, procs);
    var ds := EmitDefers(env.scopes, env);
    var lo, l1 := env.nextLabel, ds.env.nextLabel;
    assert ds.env.scopes == env.scopes;
    hide EmitDefers, LowerValue, GoodCode, GoodScopes;
    if arg.None? {
      GoodPlain(Op(Ret(NoRef)), l1, procs);
      GoodThen(ds.t, Op(Ret(NoRef)), lo, l1, l1, procs);
    } else {
      LowerValueGood(arg.value, ds.env, procs);
      var v := LowerValue(arg.value, ds.env);
      var l2 := v.env.nextLabel;
      var last := Then(v.t, Op(Ret(v.r)));
      GoodPlain(last.b, l2, procs);
      GoodThen(v.t, last.b, l1, l2, l2, procs);
      GoodThen(ds.t, last, lo, l1, l2, procs);
    }
  }

  lemma {:induction false} LowerAllGood(ss: seq<S.Stmt>, env: Env, procs: nat)
    requires env.scopes != [] && (forall x | x in ss :: S.Wf(x, procs)) && GoodScopes(env.scopes, procs)
    ensures Good(LowerAll(ss, env), env, procs)
    decreases S.SizeAll(ss), 1
  {
    if ss == [] {
      GoodPlain(Nil, env.nextLabel, procs);
    } else {
      LowerGood(ss[0], env, procs);
      var c := Lower(ss[0], env);
      LowerAllGood(ss[1..], c.env, procs);
      var rest := LowerAll(ss[1..], c.env);
      GoodThen(c.t, rest.t, env.nextLabel, c.env.nextLabel, rest.env.nextLabel, procs);
    }
  }

  lemma {:induction false} LowerScopeGood(b: S.Stmt, env: Env, procs: nat)
    requires env.scopes != [] && S.Wf(b, procs) && GoodScopes(env.scopes, procs)
    ensures Good(LowerScope(b, env), env, procs)
    decreases S.Size(b), 2
  {
    var env1 := Entered(env);
    LowerGood(b, env1, procs);
    var c := Lower(b, env1);
    EmitDefersGood(c.env.scopes[..1], LeftFrame(c.env), procs);
    var ds := EmitDefers(c.env.scopes[..1], LeftFrame(c.env));
    GoodThen(c.t, ds.t, env.nextLabel, c.env.nextLabel, ds.env.nextLabel, procs);
  }

  lemma {:induction false} LowerIfGood(s: S.Stmt, env: Env, procs: nat)
    requires s.If? && env.scopes != [] && S.Wf(s, procs) && GoodScopes(env.scopes, procs)
    ensures Good(Lower(s, env), env, procs)
    decreases S.Size(s), 0
  {
    hide GoodCode, GoodScopes, LowerScope, LowerValue;
    var lo := env.nextLabel;
    var env0 := env.(nextLabel := lo + if s.els.Some? then 2 else 1);
    var cond := LowerValue(s.cond, env0);
    LowerValueGood(s.cond, env0, procs);
    var body := LowerScope(s.thn, cond.env);
    LowerScopeGood(s.thn, cond.env, procs);
    if s.els.None? {
      var t := When(cond.r, body.t, lo);
      GoodWhen(cond.t, t, lo, cond.env.nextLabel, body.env.nextLabel, procs);
      GoodNoted2(env, cond.t, t, lo, body.env.nextLabel, procs);
    } else {
      var env2 := body.env.(hasReturn := false);
      var other := LowerScope(s.els.value, env2);
      LowerScopeGood(s.els.value, env2, procs);
      var t := Choose(true, cond.r, body.t, other.t, lo + 1, lo);
      GoodChoose(cond.t, t, lo, cond.env.nextLabel, body.env.nextLabel, other.env.nextLabel, procs);
      GoodNoted2(env, cond.t, t, lo, other.env.nextLabel, procs);
    }
  }

  lemma {:induction false} LowerWhileGood(s: S.Stmt, env: Env, procs: nat)
    requires s.While? && env.scopes != [] && S.Wf(s, procs) && GoodScopes(env.scopes, procs)
    ensures Good(Lower(s, env), env, procs)
    decreases S.Size(s), 0
  {
    var lo := env.nextLabel;
    var env0 := env.(nextLabel := lo + 2, hasReturn := false);
    var cond := LowerValue(s.cond, env0);
    LowerValueGood(s.cond, env0, procs);
    var body := LowerScope(s.body, cond.env);
    LowerScopeGood(s.body, cond.env, procs);
    var t := Loop(cond.t, cond.r, body.t, lo, lo + 1);
    GoodNoted(env, t, lo, body.env.nextLabel, procs);
  }

  lemma LowerProcGood(s: S.Stmt, firstLabel: nat, logging: bool, procs: nat)
    requires S.Wf(s, procs)
    ensures var c := LowerProc(s, firstLabel, logging); GoodCode(c.t, firstLabel, c.env.nextLabel, procs)
  {
    var env := BodyEnv(firstLabel, logging);
    LowerGood(s, env, procs);
    var c := Lower(s, env);
    EmitDefersGood(c.env.scopes, Finished(c.env), procs);
    var ds := EmitDefers(c.env.scopes, Finished(c.env));
    var hi := ds.env.nextLabel;
    var ret := if ds.env.hasReturn then Nil else Op(Ret(NoRef));
    GoodPlain(ret, hi, procs);
    GoodThen(ds.t, ret, c.env.nextLabel, hi, hi, procs);
    GoodThen(c.t, Then(ds.t, ret), firstLabel + 1, c.env.nextLabel, hi, procs);
    assert GoodCode(Op(Label(firstLabel)), firstLabel, firstLabel + 1, procs);
    GoodThen(Op(Label(firstLabel)), Then(c.t, Then(ds.t, ret)), firstLabel, firstLabel + 1, hi, procs);
  }

  // --- Running off the end ---

  /** Code of a statement that meets a return on every way cannot be run through. */
  lemma {:induction false} NeverEndsTerminal(s: S.Stmt, env: Env)
    requires env.scopes != [] && S.NeverEnds(s)
    ensures Terminal(Lower(s, env).t)
    decreases S.Size(s), 1
  {
    match s
    case List(ss) => NeverEndsTerminalAll(ss, env);
    case Scope(b) => NeverEndsTerminalScope(b, env);
    case If(_, _, _) => NeverEndsTerminalIf(s, env);
    case Return(_) => ReturnTerminal(s, env);
  }

  lemma ReturnTerminal(s: S.Stmt, env: Env)
    requires env.scopes != [] && s.Return?
    ensures Terminal(Lower(s, env).t)
  {
    hide LowerValue, EmitDefers;
    var ds := EmitDefers(env.scopes, env);
    if s.arg.Some? {
      var v := LowerValue(s.arg.value, ds.env);
      assert Terminal(Then(v.t, Op(Ret(v.r))));
    }
  }

  lemma {:induction false} NeverEndsTerminalIf(s: S.Stmt, env: Env)
    requires env.scopes != [] && s.If? && S.NeverEnds(s)
    ensures Terminal(Lower(s, env).t)
    decreases S.Size(s), 0
  {
    hide LowerValue, LowerScope;
    var cond := LowerValue(s.cond, env.(nextLabel := env.nextLabel + 2));
    var body := LowerScope(s.thn, cond.env);
    var env2 := body.env.(hasReturn := false);
    NeverEndsTerminalScope(s.thn, cond.env);
    NeverEndsTerminalScope(s.els.value, env2);
    TerminalNoted(env, cond.t, Choose(true, cond.r, body.t, LowerScope(s.els.value, env2).t, env.nextLabel + 1, env.nextLabel));
  }

  lemma {:induction false} NeverEndsTerminalScope(b: S.Stmt, env: Env)
    requires env.scopes != [] && S.NeverEnds(b)
    ensures Terminal(LowerScope(b, env).t)
    decreases S.Size(b), 2
  {
    NeverEndsTerminal(b, Entered(env));
    ScopeEnd(b, env);
    hide Lower, LowerScope;
  }

  lemma TerminalNoted(env: Env, a: Tree, b: Tree)
    requires Terminal(b)
    ensures Terminal(Then(Note(env), Then(a, Then(b, Note(env)))))
  {
    assert Terminal(Then(b, Note(env)));
  }

  lemma {:induction false} NeverEndsTerminalAll(ss: seq<S.Stmt>, env: Env)
    requires env.scopes != [] && exists x | x in ss :: S.NeverEnds(x)
    ensures Terminal(LowerAll(ss, env).t)
    decreases S.SizeAll(ss), 1
  {
    if S.NeverEnds(ss[0]) {
      NeverEndsTerminal(ss[0], env);
    } else {
      NeverEndsTerminalAll(ss[1..], Lower(ss[0], env).env);
    }
  }

  /** A finished proc can be run off its end exactly when its body's code can be run through and the last label
      or return compiled in it is a return. */
  lemma ProcTerminal(s: S.Stmt, firstLabel: nat, logging: bool)
    ensures Terminal(LowerProc(s, firstLabel, logging).t) <==>
              Terminal(Lower(s, BodyEnv(firstLabel, logging)).t) || !S.Raised(s, false)
    ensures S.ExitsProc(s) ==> Terminal(LowerProc(s, firstLabel, logging).t)
  {
    var env := BodyEnv(firstLabel, logging);
    FlagIsRaised(s, env);
    if S.NeverEnds(s) { NeverEndsTerminal(s, env); }
    var c := Lower(s, env);
    var ds := EmitDefers(c.env.scopes, Finished(c.env));
    var ret := if ds.env.hasReturn then Nil else Op(Ret(NoRef));
    assert Terminal(Then(ds.t, ret)) <==> !c.env.hasReturn;
    assert Terminal(Then(c.t, Then(ds.t, ret))) <==> Terminal(c.t) || !c.env.hasReturn;
    hide Lower, S.Raised, S.NeverEnds, S.Exits;
  }

  // --- The same facts about the instruction stream ---

  lemma {:induction false} LabelAt(code: seq<Instr>, i: nat)
    requires i < |code| && code[i].Label?
    ensures multiset(LabelsOf(code))[code[i].id] >= 1
  {
    if i > 0 {
      LabelAt(code[1..], i - 1);
      OccurConcat(if code[0].Label? then [code[0].id] else [], LabelsOf(code[1..]), code[i].id);
    }
  }

  lemma {:induction false} LabelsApart(code: seq<Instr>, i: nat, j: nat)
    requires i < j < |code| && code[i].Label? && code[j].Label?
    requires multiset(LabelsOf(code))[code[i].id] <= 1
    ensures code[i].id != code[j].id
  {
    var l := code[i].id;
    OccurConcat(if code[0].Label? then [code[0].id] else [], LabelsOf(code[1..]), l);
    if i > 0 {
      LabelsApart(code[1..], i - 1, j - 1);
    } else if code[j].id == l {
      LabelAt(code[1..], j - 1);
    }
  }

  lemma UniqueFlat(t: Tree)
    requires NoDup(t)
    ensures UniqueLabels(Flatten(t))
  {
    var code := Flatten(t);
    forall i, j | 0 <= i < j < |code| && code[i].Label? && code[j].Label? ensures code[i].id != code[j].id {
      PlacedIsFlat(t);
      CountIsPlaced(t, code[i].id);
      LabelsApart(code, i, j);
    }
  }

  /** The translator's preconditions: an unconditional jump ends its block, and every target is placed. */
  ghost predicate JumpsEndBlocks(code: seq<Instr>) {
    forall i | 0 <= i < |code| && code[i].Jmp? :: i + 1 < |code| && code[i + 1].Label?
  }

  ghost predicate TargetsPlaced(code: seq<Instr>) {
    forall i | 0 <= i < |code| && HasTarget(code[i]) :: Label(code[i].target) in code
  }

  lemma JumpsConcat(a: seq<Instr>, b: seq<Instr>)
    requires JumpsEndBlocks(a) && JumpsEndBlocks(b)
    ensures JumpsEndBlocks(a + b)
  {}

  lemma TargetsConcat(a: seq<Instr>, b: seq<Instr>)
    requires TargetsPlaced(a) && TargetsPlaced(b)
    ensures TargetsPlaced(a + b)
  {
    var code := a + b;
    forall i | 0 <= i < |code| && HasTarget(code[i]) ensures Label(code[i].target) in code {
      if i < |a| { assert code[i] == a[i]; } else { assert code[i] == b[i - |a|]; }
    }
  }

  lemma {:induction false} JumpsFlat(t: Tree, procs: nat)
    requires WfTree(t, procs)
    ensures JumpsEndBlocks(Flatten(t))
  {
    match t
    case Nil =>
    case Op(_) =>
    case Then(a, b) =>
      JumpsFlat(a, procs);
      JumpsFlat(b, procs);
      JumpsConcat(Flatten(a), Flatten(b));
    case When(c, body, end) =>
      JumpsFlat(body, procs);
      JumpsConcat([Jmpz(c, end)], Flatten(body));
      JumpsConcat([Jmpz(c, end)] + Flatten(body), [Jmp(end), Label(end)]);
    case Choose(z, c, x, y, alt, end) =>
      JumpsFlat(x, procs);
      JumpsFlat(y, procs);
      var a, b, d, e, f := [CondJump(z, c, alt)], Flatten(x), [Jmp(end), Label(alt)], Flatten(y), [Jmp(end), Label(end)];
      JumpsConcat(a, b);
      JumpsConcat(a + b, d);
      JumpsConcat(a + b + d, e);
      JumpsConcat(a + b + d + e, f);
    case Loop(h, c, body, loop, end) =>
      JumpsFlat(h, procs);
      JumpsFlat(body, procs);
      var a, b, d, e, f := [Jmp(loop), Label(loop)], Flatten(h), [Jmpz(c, end)], Flatten(body), [Jmp(loop), Label(end)];
      JumpsConcat(a, b);
      JumpsConcat(a + b, d);
      JumpsConcat(a + b + d, e);
      JumpsConcat(a + b + d + e, f);
  }

  lemma {:induction false} TargetsFlat(t: Tree, procs: nat)
    requires WfTree(t, procs)
    ensures TargetsPlaced(Flatten(t))
  {
    match t
    case Nil =>
    case Op(_) =>
    case Then(a, b) =>
      TargetsFlat(a, procs);
      TargetsFlat(b, procs);
      TargetsConcat(Flatten(a), Flatten(b));
    case When(_, body, _) =>
      TargetsFlat(body, procs);
      TargetsWrapped(t, procs);
    case Choose(_, _, x, y, _, _) =>
      TargetsFlat(x, procs);
      TargetsFlat(y, procs);
      TargetsWrapped(t, procs);
    case Loop(h, _, body, _, _) =>
      TargetsFlat(h, procs);
      TargetsFlat(body, procs);
      TargetsWrapped(t, procs);
  }

  /** A control structure places its own labels. */
  lemma TargetsWrapped(t: Tree, procs: nat)
    requires WfTree(t, procs)
    requires t.When? ==> TargetsPlaced(Flatten(t.body))
    requires t.Choose? ==> TargetsPlaced(Flatten(t.thn)) && TargetsPlaced(Flatten(t.els))
    requires t.Loop? ==> TargetsPlaced(Flatten(t.head)) && TargetsPlaced(Flatten(t.body))
    requires t.When? || t.Choose? || t.Loop?
    ensures TargetsPlaced(Flatten(t))
  {
    var code := Flatten(t);
    match t
    case When(c, body, end) =>
      TargetsKept([Jmpz(c, end)], Flatten(body), [Jmp(end), Label(end)], [], []);
      assert code == [Jmpz(c, end)] + Flatten(body) + [Jmp(end), Label(end)] + [] + [];
      assert code[|code| - 1] == Label(end);
    case Choose(z, c, x, y, alt, end) =>
      TargetsKept([CondJump(z, c, alt)], Flatten(x), [Jmp(end), Label(alt)], Flatten(y), [Jmp(end), Label(end)]);
      assert code[|code| - 1] == Label(end) && code[2 + |Flatten(x)|] == Label(alt);
    case Loop(h, c, body, loop, end) =>
      var b := [Jmpz(c, end)] + Flatten(body);
      TargetsKept([Jmp(loop), Label(loop)], Flatten(h), [Jmpz(c, end)], Flatten(body), [Jmp(loop), Label(end)]);
      assert code[|code| - 1] == Label(end) && code[1] == Label(loop);
  }

  /** Targets of the pieces b and d stay placed; those of a, c and e are left to the caller. */
  lemma TargetsKept(a: seq<Instr>, b: seq<Instr>, c: seq<Instr>, d: seq<Instr>, e: seq<Instr>)
    requires TargetsPlaced(b) && TargetsPlaced(d)
    ensures var code := a + b + c + d + e;
            forall i | 0 <= i < |code| && HasTarget(code[i]) ::
              code[i] in a || code[i] in c || code[i] in e || Label(code[i].target) in code
  {
    var code := a + b + c + d + e;
    forall i | 0 <= i < |code| && HasTarget(code[i])
      ensures code[i] in a || code[i] in c || code[i] in e || Label(code[i].target) in code
    {
      var m := |a| + |b| + |c|;
      if |a| <= i < |a| + |b| {
        assert code[i] == b[i - |a|];
      } else if m <= i < m + |d| {
        assert code[i] == d[i - m];
      }
    }
  }
}
