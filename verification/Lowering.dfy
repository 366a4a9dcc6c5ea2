/** What the front end emits for a statement, as a function of the compilation context. Defers are kept as
    recorded code and copied, label-fresh, wherever a scope is left. */
module Lowering {
  import opened Ir
  import Source
  import opened Trees
  import F = FrameSlots

  const BOOL := F.Type(1, 1)

  /** The part of the compilation context that decides what is emitted. `scopes` holds the scopes of the
      current proc only, innermost first; each lists its recorded defers, latest first. */
  datatype Env = Env(
    nextLabel: nat,
    frame: F.Frame,    // of the current proc
    scopes: seq<seq<Tree>>,
    hasReturn: bool,   // has_return_in_last_block
    logging: bool)     // a build with logging also emits comments
  {
    /** One more local of boolean type. */
    function WithLocal(): Env { this.(frame := F.MakeLocal(frame, BOOL)) }

    function NextLocal(): nat { |frame.locals| }
  }

  /** A value not yet pinned to an operand: an operand, or an instruction without a destination. */
  datatype Interm =
    | IRef(r: Ref)
    | IEval(l: nat)
    | IXor(src: Ref)

  datatype StmtCode = StmtCode(t: Tree, env: Env)
  datatype ExprCode = ExprCode(t: Tree, im: Interm, env: Env)
  datatype RefCode = RefCode(t: Tree, r: Ref, env: Env)

  function Note(env: Env): Tree { if env.logging then Op(Comment) else Nil }

  function WithDst(im: Interm, dst: Ref): Instr {
    match im
    case IRef(r) => Mov(dst, r, 1)
    case IEval(l) => Eval(l, dst)
    case IXor(src) => Xor(dst, src)
  }

  function AsRef(im: Interm, env: Env): RefCode {
    if im.IRef? then RefCode(Nil, im.r, env) else
    var dst := Local(env.NextLocal());
    RefCode(Op(WithDst(im, dst)), dst, env.WithLocal())
  }

  // --- Conditions ---

  ghost predicate OnlyCounts(env: Env, env': Env) {
    && env'.scopes == env.scopes
    && env'.logging == env.logging
    && env'.frame.scopes == env.frame.scopes
    && (env'.hasReturn ==> env.hasReturn)
    && env'.nextLabel >= env.nextLabel
  }

  function LowerExpr(e: Source.Expr, invert: bool, env: Env): (c: ExprCode)
    ensures OnlyCounts(env, c.env)
    ensures c.im.IRef? ==> !c.im.r.NoRef?
    decreases e, 1
  {
    match e
    case Leaf(l) =>
      if !invert then ExprCode(Nil, IEval(l), env) else
      var r := AsRef(IEval(l), env);
      ExprCode(r.t, IXor(r.r), r.env)
    case Const(b) =>
      ExprCode(Nil, if invert then IXor(ConstRef(b)) else IRef(ConstRef(b)), env)
    case Not(x) => LowerExpr(x, !invert, env)
    case And(_, _) => LowerShort(e, invert, !invert, env)
    case Or(_, _) => LowerShort(e, invert, invert, env)
  }

  function LowerShort(e: Source.Expr, invert: bool, isAnd: bool, env: Env): (c: ExprCode)
    requires e.And? || e.Or?
    ensures OnlyCounts(env, c.env)
    ensures c.im.IRef? && !c.im.r.NoRef?
    decreases e, 0
  {
    var shortL, joinL, res := env.nextLabel, env.nextLabel + 1, Local(env.NextLocal());
    var env0 := env.WithLocal().(nextLabel := env.nextLabel + 2);
    var lhs := LowerExpr(e.lhs, invert, env0);
    var lref := AsRef(lhs.im, lhs.env);
    var rhs := LowerExpr(e.rhs, invert, lref.env);
    var t := Choose(isAnd, lref.r,
                    Then(rhs.t, Op(WithDst(rhs.im, res))),
                    Op(Mov(res, lref.r, 1)),
                    shortL, joinL);
    ExprCode(Then(Note(env), Then(Then(lhs.t, lref.t), Then(t, Note(env)))), IRef(res),
             rhs.env.(hasReturn := false))
  }

  function LowerValue(e: Source.Expr, env: Env): (c: RefCode)
    ensures OnlyCounts(env, c.env)
    ensures !c.r.NoRef?
  {
    var c := LowerExpr(e, false, env);
    var r := AsRef(c.im, c.env);
    RefCode(Then(c.t, r.t), r.r, r.env)
  }

  // --- Replaying defers ---

  function LabelCount(t: Tree): nat { |LabelsOf(Flatten(t))| }

  /** A copy of recorded code with the next labels in place of its own. */
  function CopyOf(t: Tree, base: nat): Tree { Rename(LabelsOf(Flatten(t)), base, t) }

  function Replay(ds: seq<Tree>, env: Env): (c: StmtCode)
    ensures c.env == env.(nextLabel := c.env.nextLabel) && c.env.nextLabel >= env.nextLabel
  {
    if ds == [] then StmtCode(Nil, env) else
    var rest := Replay(ds[1..], env.(nextLabel := env.nextLabel + LabelCount(ds[0])));
    StmtCode(Then(CopyOf(ds[0], env.nextLabel), rest.t), rest.env)
  }

  function ReplayAll(scopes: seq<seq<Tree>>, env: Env): (c: StmtCode)
    ensures c.env == env.(nextLabel := c.env.nextLabel) && c.env.nextLabel >= env.nextLabel
  {
    if scopes == [] then StmtCode(Nil, env) else
    var c := Replay(scopes[0], env);
    var rest := ReplayAll(scopes[1..], c.env);
    StmtCode(Then(c.t, rest.t), rest.env)
  }

  /** Defers of the given scopes, unless the block already returned. */
  function EmitDefers(scopes: seq<seq<Tree>>, env: Env): StmtCode {
    if env.hasReturn then StmtCode(Nil, env) else ReplayAll(scopes, env)
  }

  // --- Statements ---

  ghost predicate Kept(env: Env, env': Env) {
    && env'.scopes != []
    && |env'.scopes| == |env.scopes|
    && env'.scopes[1..] == env.scopes[1..]
    && env'.logging == env.logging
    && env'.frame.scopes == env.frame.scopes
    && env'.nextLabel >= env.nextLabel
  }

  function Lower(s: Source.Stmt, env: Env): (c: StmtCode)
    requires env.scopes != []
    ensures Kept(env, c.env)
    decreases Source.Size(s), 0
  {
    match s
    case Act(a) => StmtCode(Op(Do(a)), env)
    case ActWith(a, sym) => StmtCode(Op(DoWith(a, sym)), env)
    case Ext(sym) => StmtCode(Op(Ir.Ext(sym)), env)
    case Invoke(p) => StmtCode(Op(Call(p)), env)
    case Drop(e) =>
      var v := LowerValue(e, env);
      StmtCode(v.t, v.env)
    case List(ss) => LowerAll(ss, env)
    case Scope(b) => LowerScope(b, env)
    case If(c, thn, els) =>
      var endif := env.nextLabel;
      var alt := endif + 1;
      var env0 := env.(nextLabel := endif + if els.Some? then 2 else 1);
      var cond := LowerValue(c, env0);
      var body := LowerScope(thn, cond.env);
      if els.None? then
        StmtCode(Then(Note(env), Then(cond.t, Then(When(cond.r, body.t, endif), Note(env)))),
                 body.env.(hasReturn := false))
      else
        var other := LowerScope(els.value, body.env.(hasReturn := false));
        StmtCode(Then(Note(env), Then(cond.t, Then(Choose(true, cond.r, body.t, other.t, alt, endif), Note(env)))),
                 other.env.(hasReturn := false))
    case While(c, b) =>
      var loop := env.nextLabel;
      var endloop := loop + 1;
      var env0 := env.(nextLabel := loop + 2, hasReturn := false);
      var cond := LowerValue(c, env0);
      var body := LowerScope(b, cond.env);
      StmtCode(Then(Note(env), Then(Loop(cond.t, cond.r, body.t, loop, endloop), Note(env))),
               body.env.(hasReturn := false))
    case Defer(d) =>
      var c := Lower(d, env);
      var t := Then(Note(env), Then(c.t, Note(env)));
      StmtCode(Nil, c.env.(scopes := [[t] + c.env.scopes[0]] + c.env.scopes[1..]))
    case Return(arg) =>
      var ds := EmitDefers(env.scopes, env);
      if arg.None? then StmtCode(Then(ds.t, Op(Ret(NoRef))), ds.env.(hasReturn := true)) else
      var v := LowerValue(arg.value, ds.env);
      StmtCode(Then(ds.t, Then(v.t, Op(Ret(v.r)))), v.env.(hasReturn := true))
  }

  function LowerAll(ss: seq<Source.Stmt>, env: Env): (c: StmtCode)
    requires env.scopes != []
    ensures Kept(env, c.env)
    decreases Source.SizeAll(ss), 0
  {
    if ss == [] then StmtCode(Nil, env) else
    var c := Lower(ss[0], env);
    var rest := LowerAll(ss[1..], c.env);
    StmtCode(Then(c.t, rest.t), rest.env)
  }

  function LowerScope(s: Source.Stmt, env: Env): (c: StmtCode)
    requires env.scopes != []
    ensures c.env.scopes == env.scopes && c.env.logging == env.logging && c.env.nextLabel >= env.nextLabel
    ensures c.env.frame.scopes == env.frame.scopes
    decreases Source.Size(s), 1
  {
    var c := Lower(s, Entered(env));
    assert c.env.scopes[1..] == env.scopes;
    var end := LeftFrame(c.env);
    var ds := EmitDefers(end.scopes[..1], end);
    StmtCode(Then(c.t, ds.t), ds.env.(scopes := env.scopes))
  }

  /** A scope opened, with a frame scope of its own. */
  function Entered(env: Env): (env': Env)
    ensures env'.scopes == [[]] + env.scopes && env'.frame.scopes == env.frame.scopes + [env.frame.cur]
    ensures env'.hasReturn == env.hasReturn && env'.logging == env.logging
  {
    env.(scopes := [[]] + env.scopes, frame := F.Enter(env.frame))
  }

  /** Its frame scope closed, which comes before its deferred statements. */
  function LeftFrame(env: Env): (env': Env)
    requires env.frame.scopes != []
    ensures env'.scopes == env.scopes
  {
    env.(frame := F.Leave(env.frame))
  }

  /** The context in which a proc's body is compiled. */
  function BodyEnv(firstLabel: nat, logging: bool): Env { Env(firstLabel + 1, F.EMPTY, [[]], false, logging) }

  /** The frame is finished before the proc's own scope is left. */
  function Finished(env: Env): Env { env.(frame := F.Finish(env.frame)) }

  /** A whole proc: a start label, the body in the proc's scope, its defers, and a return if one is missing. */
  function LowerProc(s: Source.Stmt, firstLabel: nat, logging: bool): StmtCode {
    var c := Lower(s, BodyEnv(firstLabel, logging));
    var ds := EmitDefers(c.env.scopes, Finished(c.env));
    var ret := if ds.env.hasReturn then Nil else Op(Ret(NoRef));
    StmtCode(Then(Op(Label(firstLabel)), Then(c.t, Then(ds.t, ret))), ds.env)
  }

  // --- The return flag ---

  lemma {:induction false} ExprFlag(e: Source.Expr, invert: bool, env: Env)
    ensures LowerExpr(e, invert, env).env.hasReturn == (env.hasReturn && !Source.Branches(e))
  {
    match e
    case Not(x) => ExprFlag(x, !invert, env);
    case _ =>
  }

  /** The flag follows the last label or return compiled, whether recorded or emitted; replayed code does not
      count. */
  lemma {:induction false} FlagIsRaised(s: Source.Stmt, env: Env)
    requires env.scopes != []
    ensures Lower(s, env).env.hasReturn == Source.Raised(s, env.hasReturn)
    decreases Source.Size(s), 0
  {
    match s
    case Drop(e) => ExprFlag(e, false, env);
    case List(ss) => FlagIsRaisedAll(ss, env);
    case Scope(b) => FlagIsRaised(b, Entered(env));
    case Defer(d) => FlagIsRaised(d, env);
    case _ =>
  }

  lemma {:induction false} FlagIsRaisedAll(ss: seq<Source.Stmt>, env: Env)
    requires env.scopes != []
    ensures LowerAll(ss, env).env.hasReturn == Source.RaisedAll(ss, env.hasReturn)
    decreases Source.SizeAll(ss), 0
  {
    if ss != [] {
      FlagIsRaised(ss[0], env);
      FlagIsRaisedAll(ss[1..], Lower(ss[0], env).env);
    }
  }

  /** A scope's end replays what was recorded in it if and only if the flag is clear there; otherwise it emits
      nothing. */
  lemma ScopeEnd(b: Source.Stmt, env: Env)
    requires env.scopes != []
    ensures var c := Lower(b, Entered(env));
            LowerScope(b, env).t ==
              Then(c.t, if Source.Raised(b, env.hasReturn) then Nil else ReplayAll([c.env.scopes[0]], LeftFrame(c.env)).t)
  {
    var c := Lower(b, Entered(env));
    FlagIsRaised(b, Entered(env));
    assert c.env.scopes[..1] == [c.env.scopes[0]];
  }

  /** The locals made in a scope use no space behind it. */
  lemma ScopeSpace(b: Source.Stmt, env: Env)
    requires env.scopes != []
    ensures LowerScope(b, env).env.frame.cur == env.frame.cur
  {
    hide Lower;
  }

  /** Something was recorded in a scope if and only if its text defers something there. */
  lemma {:induction false} PendsRecorded(s: Source.Stmt, env: Env)
    requires env.scopes != []
    ensures Source.Pends(s) ==> Lower(s, env).env.scopes[0] != []
    ensures !Source.Pends(s) ==> Lower(s, env).env.scopes == env.scopes
    ensures |Lower(s, env).env.scopes[0]| >= |env.scopes[0]|
    decreases Source.Size(s), 0
  {
    match s
    case List(ss) => PendsRecordedAll(ss, env);
    case Defer(d) => PendsRecorded(d, env);
    case _ =>
  }

  lemma {:induction false} PendsRecordedAll(ss: seq<Source.Stmt>, env: Env)
    requires env.scopes != []
    ensures (exists x | x in ss :: Source.Pends(x)) ==> LowerAll(ss, env).env.scopes[0] != []
    ensures !(exists x | x in ss :: Source.Pends(x)) ==> LowerAll(ss, env).env.scopes == env.scopes
    ensures |LowerAll(ss, env).env.scopes[0]| >= |env.scopes[0]|
    decreases Source.SizeAll(ss), 0
  {
    if ss != [] {
      PendsRecorded(ss[0], env);
      PendsRecordedAll(ss[1..], Lower(ss[0], env).env);
      if Source.Pends(ss[0]) { assert ss[0] in ss; }
      forall x | x in ss ensures x == ss[0] || x in ss[1..] {}
    }
  }

  /** With the exits inside a scope in order, the one thing that can be wrong with it is that its end can be reached,
      something is recorded, and nothing of it is emitted. */
  lemma ScopeSkips(b: Source.Stmt, env: Env)
    requires env.scopes != [] && Source.Exits(b, env.hasReturn)
    ensures var c := Lower(b, Entered(env));
            !Source.ExitsScope(b, env.hasReturn) <==>
              !Source.NeverEnds(b) && c.env.scopes[0] != [] && LowerScope(b, env).t == Then(c.t, Nil)
  {
    ScopeEnd(b, env);
    PendsRecorded(b, Entered(env));
    hide Lower, LowerScope, Source.Pends, Source.NeverEnds, Source.Raised;
  }
}
