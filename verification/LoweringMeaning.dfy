/** Replaying recorded defers statically does what the dynamic defer stacks do. */
module LoweringMeaning {
  import opened Ir
  import S = Source
  import opened Trees
  import opened Lowering

  // --- Conditions ---

  /** The value an unpinned result will have once it is pinned, and the trace after that. */
  function Pin(w: Oracle, im: Interm, s: State): S.Result {
    match im
    case IRef(r) => S.Result(Value(r, s.m), s.tr)
    case IEval(l) => var b := w(l, s.tr); S.Result(b, s.tr + [EvLeaf(l, b)])
    case IXor(src) => S.Result(!Value(src, s.m), s.tr)
  }

  lemma AsRefRight(prog: seq<Tree>, w: Oracle, n: nat, im: Interm, env: Env, s: State)
    ensures var c := AsRef(im, env);
            var o := Exec(prog, w, n, c.t, s);
            o.Done? && S.Result(Value(c.r, o.s.m), o.s.tr) == Pin(w, im, s)
  {}

  lemma WithDstRight(prog: seq<Tree>, w: Oracle, n: nat, im: Interm, dst: Ref, s: State)
    requires dst.Local?
    ensures var o := Exec(prog, w, n, Op(WithDst(im, dst)), s);
            o.Done? && S.Result(Value(dst, o.s.m), o.s.tr) == Pin(w, im, s)
  {}

  /** Lowering of a condition: the result is the (negated) truth value, and the leaves evaluated are those
      of lazy left-to-right evaluation, in that order. */
  lemma {:induction false} LowerExprRight(prog: seq<Tree>, w: Oracle, n: nat, e: S.Expr, invert: bool, env: Env, s: State)
    ensures var c := LowerExpr(e, invert, env);
            var o := Exec(prog, w, n, c.t, s);
            var r := S.Truth(w, e, s.tr);
            o.Done? && Pin(w, c.im, o.s) == S.Result(r.b != invert, r.tr)
    decreases e, 1
  {
    match e
    case Leaf(l) =>
    case Const(b) =>
    case Not(x) => LowerExprRight(prog, w, n, x, !invert, env, s);
    case And(_, _) => LowerShortRight(prog, w, n, e, invert, !invert, env, s);
    case Or(_, _) => LowerShortRight(prog, w, n, e, invert, invert, env, s);
  }

  lemma {:induction false} LowerShortRight(prog: seq<Tree>, w: Oracle, n: nat, e: S.Expr, invert: bool, isAnd: bool, env: Env, s: State)
    requires e.And? || e.Or?
    requires isAnd == (e.And? != invert)
    ensures var c := LowerShort(e, invert, isAnd, env);
            var o := Exec(prog, w, n, c.t, s);
            var r := S.Truth(w, e, s.tr);
            o.Done? && Pin(w, c.im, o.s) == S.Result(r.b != invert, r.tr)
    decreases e, 0
  {
    hide LowerExpr, AsRef;
    var env0 := env.WithLocal().(nextLabel := env.nextLabel + 2);
    var res := Local(env.NextLocal());
    var lhs := LowerExpr(e.lhs, invert, env0);
    LowerExprRight(prog, w, n, e.lhs, invert, env0, s);
    var s1 := Exec(prog, w, n, lhs.t, s).s;
    var lref := AsRef(lhs.im, lhs.env);
    AsRefRight(prog, w, n, lhs.im, lhs.env, s1);
    var s2 := Exec(prog, w, n, lref.t, s1).s;
    assert Exec(prog, w, n, Then(lhs.t, lref.t), s) == Done(s2);
    var rhs := LowerExpr(e.rhs, invert, lref.env);
    LowerExprRight(prog, w, n, e.rhs, invert, lref.env, s2);
    var choose := Choose(isAnd, lref.r, Then(rhs.t, Op(WithDst(rhs.im, res))), Op(Mov(res, lref.r, 1)),
                         env.nextLabel, env.nextLabel + 1);
    var s3 := Exec(prog, w, n, rhs.t, s2).s;
    ExecThen(prog, w, n, rhs.t, Op(WithDst(rhs.im, res)), s2);
    WithDstRight(prog, w, n, rhs.im, res, s3);
    Noted2(prog, w, n, env, Then(lhs.t, lref.t), choose, s);
    ExecThen(prog, w, n, Then(lhs.t, lref.t), choose, s);
  }

  lemma ExecThen(prog: seq<Tree>, w: Oracle, n: nat, a: Tree, b: Tree, s: State)
    ensures var o := Exec(prog, w, n, a, s);
            Exec(prog, w, n, Then(a, b), s) == if o.Done? then Exec(prog, w, n, b, o.s) else o
  {}

  /** Logging comments around a piece of code change nothing. */
  lemma Noted(prog: seq<Tree>, w: Oracle, n: nat, env: Env, x: Tree, s: State)
    ensures Exec(prog, w, n, Then(Note(env), Then(x, Note(env))), s) == Exec(prog, w, n, x, s)
  {
    ExecThen(prog, w, n, Note(env), Then(x, Note(env)), s);
    ExecThen(prog, w, n, x, Note(env), s);
  }

  lemma Noted2(prog: seq<Tree>, w: Oracle, n: nat, env: Env, x: Tree, y: Tree, s: State)
    ensures Exec(prog, w, n, Then(Note(env), Then(x, Then(y, Note(env)))), s) == Exec(prog, w, n, Then(x, y), s)
  {
    ExecThen(prog, w, n, Note(env), Then(x, Then(y, Note(env))), s);
    ExecThen(prog, w, n, x, Then(y, Note(env)), s);
    ExecThen(prog, w, n, x, y, s);
    var o := Exec(prog, w, n, x, s);
    if o.Done? { ExecThen(prog, w, n, y, Note(env), o.s); }
  }

  lemma LowerValueRight(prog: seq<Tree>, w: Oracle, n: nat, e: S.Expr, env: Env, s: State)
    ensures var c := LowerValue(e, env);
            var o := Exec(prog, w, n, c.t, s);
            o.Done? && S.Result(Value(c.r, o.s.m), o.s.tr) == S.Truth(w, e, s.tr)
  {
    LowerExprRight(prog, w, n, e, false, env, s);
    var c := LowerExpr(e, false, env);
    AsRefRight(prog, w, n, c.im, c.env, Exec(prog, w, n, c.t, s).s);
  }

  // --- Agreement of the two kinds of defer stack ---

  /** Same ending, same trace, same result; locals are the emitted code's own business. */
  ghost predicate Same(o: Outcome, so: S.Outcome) {
    match so
    case Done(_, tr) => o.Done? && o.s.tr == tr
    case Returned(tr, v) => o == Returned(tr, v)
    case Timeout(tr) => o == Timeout(tr)
  }

  function ExecList(prog: seq<Tree>, w: Oracle, n: nat, ds: seq<Tree>, s: State): Outcome {
    if ds == [] then Done(s) else
    var o := Exec(prog, w, n, ds[0], s);
    if o.Done? then ExecList(prog, w, n, ds[1..], o.s) else o
  }

  /** A compiled program: procs lowered one by one, from whatever labels were free at the time. */
  datatype Program = Program(src: seq<S.Stmt>, trees: seq<Tree>, starts: seq<nat>, logging: bool) {
    ghost predicate Compiled() {
      && |trees| == |src| == |starts|
      && S.WfProg(src)
      && forall p | 0 <= p < |src| :: trees[p] == LowerProc(src[p], starts[p], logging).t
    }
  }

  /** Up to fuel n, running the recorded code ds is unwinding the innermost scope of st. */
  ghost predicate Tracks(g: Program, w: Oracle, n: nat, ds: seq<Tree>, st: S.Defers)
    requires st != []
  {
    forall k: nat, s: State | k <= n :: Same(ExecList(g.trees, w, k, ds, s), S.Unwind(g.src, w, k, st, s.tr))
  }

  ghost predicate Agree(g: Program, w: Oracle, n: nat, scopes: seq<seq<Tree>>, st: S.Defers)
  {
    |scopes| == |st| && forall i | 0 <= i < |st| :: Tracks(g, w, n, scopes[i], st[i..])
  }

  lemma AgreeLess(g: Program, w: Oracle, n: nat, n': nat, scopes: seq<seq<Tree>>, st: S.Defers)
    requires n' <= n && Agree(g, w, n, scopes, st)
    ensures Agree(g, w, n', scopes, st)
  {
    forall i | 0 <= i < |st| ensures Tracks(g, w, n', scopes[i], st[i..]) {
      assert Tracks(g, w, n, scopes[i], st[i..]);
    }
  }

  lemma AgreeTail(g: Program, w: Oracle, n: nat, scopes: seq<seq<Tree>>, st: S.Defers)
    requires st != [] && Agree(g, w, n, scopes, st)
    ensures Agree(g, w, n, scopes[1..], st[1..])
  {
    forall i | 0 <= i < |st[1..]| ensures Tracks(g, w, n, scopes[1..][i], st[1..][i..]) {
      assert Tracks(g, w, n, scopes[i + 1], st[i + 1..]);
      assert st[1..][i..] == st[i + 1..];
    }
  }

  lemma AgreeCons(g: Program, w: Oracle, n: nat, scopes: seq<seq<Tree>>, st: S.Defers)
    requires st != [] && |scopes| == |st|
    requires Tracks(g, w, n, scopes[0], st) && Agree(g, w, n, scopes[1..], st[1..])
    ensures Agree(g, w, n, scopes, st)
  {
    forall i | 0 <= i < |st| ensures Tracks(g, w, n, scopes[i], st[i..]) {
      if i == 0 {
        assert st[0..] == st;
      } else {
        assert Tracks(g, w, n, scopes[1..][i - 1], st[1..][i - 1..]);
        assert st[1..][i - 1..] == st[i..];
      }
    }
  }

  lemma AgreeHead(g: Program, w: Oracle, n: nat, scopes: seq<seq<Tree>>, st: S.Defers)
    requires st != [] && Agree(g, w, n, scopes, st)
    ensures Tracks(g, w, n, scopes[0], st)
  {
    assert Tracks(g, w, n, scopes[0], st[0..]);
    assert st[0..] == st;
  }

  lemma FreshScopeAgrees(g: Program, w: Oracle, n: nat, scopes: seq<seq<Tree>>, st: S.Defers)
    requires Agree(g, w, n, scopes, st)
    ensures Agree(g, w, n, [[]] + scopes, [[]] + st)
  {
    assert ([[]] + st)[1..] == st && ([[]] + scopes)[1..] == scopes;
    AgreeCons(g, w, n, [[]] + scopes, [[]] + st);
  }

  // --- Replaying ---

  lemma {:induction false} ReplayRight(prog: seq<Tree>, w: Oracle, n: nat, ds: seq<Tree>, env: Env, s: State)
    ensures Exec(prog, w, n, Replay(ds, env).t, s) == ExecList(prog, w, n, ds, s)
    decreases |ds|
  {
    if ds != [] {
      ExecRename(prog, w, n, LabelsOf(Flatten(ds[0])), env.nextLabel, ds[0], s);
      var o := Exec(prog, w, n, ds[0], s);
      if o.Done? {
        ReplayRight(prog, w, n, ds[1..], env.(nextLabel := env.nextLabel + LabelCount(ds[0])), o.s);
      }
    }
  }

  lemma ReplayOne(scopes: seq<seq<Tree>>, env: Env)
    requires |scopes| == 1
    ensures ReplayAll(scopes, env).t == Then(Replay(scopes[0], env).t, Nil)
  {
    assert scopes[1..] == [];
  }

  lemma {:induction false} ReplayAllRight(g: Program, w: Oracle, n: nat, scopes: seq<seq<Tree>>, st: S.Defers, env: Env, s: State)
    requires Agree(g, w, n, scopes, st)
    ensures Same(Exec(g.trees, w, n, ReplayAll(scopes, env).t, s), S.UnwindAll(g.src, w, n, st, s.tr))
    decreases |st|
  {
    if st != [] {
      ReplayRight(g.trees, w, n, scopes[0], env, s);
      AgreeHead(g, w, n, scopes, st);
      AgreeTail(g, w, n, scopes, st);
      var c := Replay(scopes[0], env);
      var o := Exec(g.trees, w, n, c.t, s);
      if o.Done? { ReplayAllRight(g, w, n, scopes[1..], st[1..], c.env, o.s); }
    }
  }

  // --- What the text says about a run ---

  lemma {:induction false} NeverEndsNeverDone(prog: seq<S.Stmt>, w: Oracle, n: nat, s: S.Stmt, st: S.Defers, tr: Trace)
    requires st != [] && S.NeverEnds(s)
    ensures !S.Exec(prog, w, n, s, st, tr).Done?
    decreases s
  {
    match s
    case List(ss) => NeverEndsNeverDoneAll(prog, w, n, ss, st, tr);
    case Scope(b) => NeverEndsNeverDone(prog, w, n, b, [[]] + st, tr);
    case If(c, t, e) =>
      var r := S.Truth(w, c, tr);
      if r.b { NeverEndsNeverDone(prog, w, n, t, [[]] + st, r.tr); }
      else { NeverEndsNeverDone(prog, w, n, e.value, [[]] + st, r.tr); }
    case _ =>
  }

  lemma {:induction false} NeverEndsNeverDoneAll(prog: seq<S.Stmt>, w: Oracle, n: nat, ss: seq<S.Stmt>, st: S.Defers, tr: Trace)
    requires st != [] && exists x | x in ss :: S.NeverEnds(x)
    ensures !S.ExecAll(prog, w, n, ss, st, tr).Done?
    decreases ss
  {
    var o := S.Exec(prog, w, n, ss[0], st, tr);
    if S.NeverEnds(ss[0]) {
      NeverEndsNeverDone(prog, w, n, ss[0], st, tr);
    } else if o.Done? {
      NeverEndsNeverDoneAll(prog, w, n, ss[1..], o.st, o.tr);
    }
  }

  lemma {:induction false} PendsNothing(prog: seq<S.Stmt>, w: Oracle, n: nat, s: S.Stmt, st: S.Defers, tr: Trace)
    requires st != [] && !S.Pends(s)
    ensures var o := S.Exec(prog, w, n, s, st, tr); o.Done? ==> o.st == st
    decreases n, s
  {
    match s
    case List(ss) => PendsNothingAll(prog, w, n, ss, st, tr);
    case While(c, b) =>
      if n > 0 {
        var r := S.Truth(w, c, tr);
        var o := S.ExecScope(prog, w, n, b, st, r.tr);
        if r.b && o.Done? { PendsNothing(prog, w, n - 1, s, st, o.tr); }
      }
    case _ =>
  }

  lemma {:induction false} PendsNothingAll(prog: seq<S.Stmt>, w: Oracle, n: nat, ss: seq<S.Stmt>, st: S.Defers, tr: Trace)
    requires st != [] && !(exists x | x in ss :: S.Pends(x))
    ensures var o := S.ExecAll(prog, w, n, ss, st, tr); o.Done? ==> o.st == st
    decreases n, ss
  {
    if ss != [] {
      assert ss[0] in ss;
      PendsNothing(prog, w, n, ss[0], st, tr);
      var o := S.Exec(prog, w, n, ss[0], st, tr);
      if o.Done? { PendsNothingAll(prog, w, n, ss[1..], o.st, o.tr); }
    }
  }

  // --- Statements ---

  /** What lowering a statement must achieve at fuel n, from state s with stacks st. */
  ghost predicate Right(g: Program, w: Oracle, n: nat, c: StmtCode, s: State, so: S.Outcome) {
    && Same(Exec(g.trees, w, n, c.t, s), so)
    && (so.Done? ==> Agree(g, w, n, c.env.scopes, so.st))
  }

  lemma {:induction false} LowerRight(g: Program, w: Oracle, n: nat, stmt: S.Stmt, env: Env, st: S.Defers, s: State)
    requires g.Compiled() && S.Exits(stmt, env.hasReturn) && env.logging == g.logging
    requires st != [] && Agree(g, w, n, env.scopes, st)
    ensures Right(g, w, n, Lower(stmt, env), s, S.Exec(g.src, w, n, stmt, st, s.tr))
    decreases n, S.Size(stmt), 2
  {
    match stmt
    case Act(_) =>
    case ActWith(_, _) =>
    case Ext(_) =>
    case Invoke(p) =>
      if n > 0 && p < |g.src| { LowerProcRight(g, w, n - 1, p, s.tr + [EvCall(p)]); }
      assert Same(Exec(g.trees, w, n, Op(Call(p)), s), S.ExecCall(g.src, w, n, p, st, s.tr));
    case Drop(e) => LowerValueRight(g.trees, w, n, e, env, s);
    case List(ss) => LowerAllRight(g, w, n, ss, env, st, s);
    case Scope(b) => LowerScopeRight(g, w, n, b, env, st, s);
    case If(c, thn, els) => LowerIfRight(g, w, n, stmt, env, st, s);
    case While(c, b) => LowerWhileRight(g, w, n, stmt, env, st, s);
    case Defer(d) => LowerDeferRight(g, w, n, d, env, st);
    case Return(arg) => LowerReturnRight(g, w, n, arg, env, st, s);
  }

  lemma {:induction false} LowerAllRight(g: Program, w: Oracle, n: nat, ss: seq<S.Stmt>, env: Env, st: S.Defers, s: State)
    requires g.Compiled() && S.ExitsAll(ss, env.hasReturn) && env.logging == g.logging
    requires st != [] && Agree(g, w, n, env.scopes, st)
    ensures Right(g, w, n, LowerAll(ss, env), s, S.ExecAll(g.src, w, n, ss, st, s.tr))
    decreases n, S.SizeAll(ss), 2
  {
    if ss != [] {
      LowerRight(g, w, n, ss[0], env, st, s);
      var so := S.Exec(g.src, w, n, ss[0], st, s.tr);
      if so.Done? {
        var c := Lower(ss[0], env);
        var o := Exec(g.trees, w, n, c.t, s);
        FlagIsRaised(ss[0], env);
        if S.NeverEnds(ss[0]) { NeverEndsNeverDone(g.src, w, n, ss[0], st, s.tr); }
        LowerAllRight(g, w, n, ss[1..], c.env, so.st, o.s);
      }
    }
  }

  /** Replaying the innermost scope is unwinding it. */
  lemma EndReplayed(g: Program, w: Oracle, n: nat, env: Env, st: S.Defers, s: State)
    requires st != [] && env.scopes != [] && Agree(g, w, n, env.scopes, st)
    ensures Same(Exec(g.trees, w, n, ReplayAll([env.scopes[0]], env).t, s), S.Unwind(g.src, w, n, st, s.tr))
  {
    AgreeHead(g, w, n, env.scopes, st);
    ReplayRight(g.trees, w, n, env.scopes[0], env, s);
    ReplayOne([env.scopes[0]], env);
    ExecThen(g.trees, w, n, Replay(env.scopes[0], env).t, Nil, s);
  }

  lemma Deep(g: Program, w: Oracle, n: nat, scopes: seq<seq<Tree>>, st: S.Defers)
    requires (st != [] || scopes != []) && Agree(g, w, n, scopes, st)
    ensures st != [] && scopes != []
  {
    hide Tracks;
  }

  lemma StillScoped(b: S.Stmt, env: Env)
    requires env.scopes != []
    ensures var env' := Lower(b, Entered(env)).env; env'.scopes != [] && env'.frame.scopes != []
  {
    hide Lower;
  }

  lemma RightIs(g: Program, w: Oracle, n: nat, c: StmtCode, s: State, so: S.Outcome)
    requires Right(g, w, n, c, s, so)
    ensures Same(Exec(g.trees, w, n, c.t, s), so)
    ensures so.Done? <==> Exec(g.trees, w, n, c.t, s).Done?
    ensures so.Done? ==> Exec(g.trees, w, n, c.t, s).s.tr == so.tr
    ensures so.Done? ==> Agree(g, w, n, c.env.scopes, so.st)
  {
    hide Exec, Agree;
  }

  /** The code of a scope: its body, and unless the flag is raised, what was deferred in it. */
  lemma ScopeRuns(prog: seq<Tree>, w: Oracle, n: nat, b: S.Stmt, env: Env, s: State)
    requires env.scopes != []
    ensures var c := Lower(b, Entered(env));
            var o := Exec(prog, w, n, c.t, s);
            Exec(prog, w, n, LowerScope(b, env).t, s) ==
              if !o.Done? || S.Raised(b, env.hasReturn) then o
              else Exec(prog, w, n, ReplayAll([c.env.scopes[0]], LeftFrame(c.env)).t, o.s)
  {
    hide Lower, LowerScope, S.Raised, ReplayAll, Entered, LeftFrame;
    ScopeEnd(b, env);
    var c := Lower(b, Entered(env));
    ExecThen(prog, w, n, c.t, Nil, s);
    ExecThen(prog, w, n, c.t, ReplayAll([c.env.scopes[0]], LeftFrame(c.env)).t, s);
  }

  lemma ScopeUnwinds(src: seq<S.Stmt>, w: Oracle, n: nat, b: S.Stmt, st: S.Defers, tr: Trace)
    requires st != []
    ensures var so := S.Exec(src, w, n, b, [[]] + st, tr);
            S.ExecScope(src, w, n, b, st, tr) ==
              if !so.Done? then so else
              var v := S.Unwind(src, w, n, so.st, so.tr);
              if v.Done? then S.Done(st, v.tr) else v
  {
    hide S.Exec, S.Unwind;
  }

  lemma ScopeSame(raised: bool, st: S.Defers, o1: Outcome, so: S.Outcome, o: Outcome, u: S.Outcome, end: Outcome, v: S.Outcome)
    requires Same(o1, so) && (so.Done? ==> Same(end, v))
    requires o == if !o1.Done? || raised then o1 else end
    requires u == if !so.Done? then so else if v.Done? then S.Done(st, v.tr) else v
    ensures if so.Done? && raised then o.Done? && o.s.tr == so.tr && (Same(o, u) <==> u == S.Done(st, so.tr)) else Same(o, u)
  {}

  /** A scope left with the flag raised runs none of its deferred statements: it agrees with its source exactly
      when these would have left no trace. With the flag clear it always agrees. */
  lemma {:induction false} LowerScopeExact(g: Program, w: Oracle, n: nat, b: S.Stmt, env: Env, st: S.Defers, s: State)
    requires g.Compiled() && S.Exits(b, env.hasReturn) && env.logging == g.logging
    requires st != [] && Agree(g, w, n, env.scopes, st)
    ensures var o, so := Exec(g.trees, w, n, LowerScope(b, env).t, s), S.Exec(g.src, w, n, b, [[]] + st, s.tr);
            var u := S.ExecScope(g.src, w, n, b, st, s.tr);
            if so.Done? && S.Raised(b, env.hasReturn)
            then o.Done? && o.s.tr == so.tr && (Same(o, u) <==> u == S.Done(st, so.tr))
            else Same(o, u)
    decreases n, S.Size(b), 3
  {
    hide *;
    Deep(g, w, n, env.scopes, st);
    var env1 := Entered(env);
    FreshScopeAgrees(g, w, n, env.scopes, st);
    LowerRight(g, w, n, b, env1, [[]] + st, s);
    var c, so := Lower(b, env1), S.Exec(g.src, w, n, b, [[]] + st, s.tr);
    var o1 := Exec(g.trees, w, n, c.t, s);
    ScopeRuns(g.trees, w, n, b, env, s);
    ScopeUnwinds(g.src, w, n, b, st, s.tr);
    RightIs(g, w, n, c, s, so);
    StillScoped(b, env);
    if so.Done? {
      Deep(g, w, n, c.env.scopes, so.st);
      EndReplayed(g, w, n, LeftFrame(c.env), so.st, o1.s);
    }
    ScopeSame(S.Raised(b, env.hasReturn), st, o1, so, Exec(g.trees, w, n, LowerScope(b, env).t, s),
              S.ExecScope(g.src, w, n, b, st, s.tr),
              if so.Done? then Exec(g.trees, w, n, ReplayAll([c.env.scopes[0]], LeftFrame(c.env)).t, o1.s) else o1,
              if so.Done? then S.Unwind(g.src, w, n, so.st, so.tr) else so);
  }

  lemma {:induction false} LowerScopeRight(g: Program, w: Oracle, n: nat, b: S.Stmt, env: Env, st: S.Defers, s: State)
    requires g.Compiled() && S.ExitsScope(b, env.hasReturn) && env.logging == g.logging
    requires st != [] && Agree(g, w, n, env.scopes, st)
    ensures Right(g, w, n, LowerScope(b, env), s, S.ExecScope(g.src, w, n, b, st, s.tr))
    decreases n, S.Size(b), 4
  {
    LowerScopeExact(g, w, n, b, env, st, s);
    if S.NeverEnds(b) {
      NeverEndsNeverDone(g.src, w, n, b, [[]] + st, s.tr);
    } else if S.Raised(b, env.hasReturn) {
      PendsNothing(g.src, w, n, b, [[]] + st, s.tr);
    }
  }

  /** A conditional without its condition. */
  function IfTree(stmt: S.Stmt, env: Env): Tree
    requires stmt.If? && env.scopes != []
  {
    var cond := LowerValue(stmt.cond, env.(nextLabel := env.nextLabel + if stmt.els.Some? then 2 else 1));
    var body := LowerScope(stmt.thn, cond.env);
    if stmt.els.None? then When(cond.r, body.t, env.nextLabel) else
    Choose(true, cond.r, body.t, LowerScope(stmt.els.value, body.env.(hasReturn := false)).t, env.nextLabel + 1, env.nextLabel)
  }

  lemma IfCode(stmt: S.Stmt, env: Env)
    requires stmt.If? && env.scopes != []
    ensures var cond := LowerValue(stmt.cond, env.(nextLabel := env.nextLabel + if stmt.els.Some? then 2 else 1));
            Lower(stmt, env).t == Then(Note(env), Then(cond.t, Then(IfTree(stmt, env), Note(env)))) &&
            Lower(stmt, env).env.scopes == env.scopes
  {
    hide LowerValue, LowerScope;
  }

  lemma {:induction false} LowerIfRight(g: Program, w: Oracle, n: nat, stmt: S.Stmt, env: Env, st: S.Defers, s: State)
    requires g.Compiled() && stmt.If? && S.Exits(stmt, env.hasReturn) && env.logging == g.logging
    requires st != [] && Agree(g, w, n, env.scopes, st)
    ensures Right(g, w, n, Lower(stmt, env), s, S.Exec(g.src, w, n, stmt, st, s.tr))
    decreases n, S.Size(stmt), 1
  {
    assert env.scopes != [];
    hide Agree, Lower, LowerScope, LowerValue, IfTree, Exec, S.Exec;
    var env0 := env.(nextLabel := env.nextLabel + if stmt.els.Some? then 2 else 1);
    var cond, t := LowerValue(stmt.cond, env0), IfTree(stmt, env);
    IfCode(stmt, env);
    LowerValueRight(g.trees, w, n, stmt.cond, env0, s);
    IfTreeRight(g, w, n, stmt, env, st, s);
    Noted2(g.trees, w, n, env, cond.t, t, s);
    ExecThen(g.trees, w, n, cond.t, t, s);
  }

  lemma {:induction false} IfTreeRight(g: Program, w: Oracle, n: nat, stmt: S.Stmt, env: Env, st: S.Defers, s: State)
    requires g.Compiled() && stmt.If? && S.Exits(stmt, env.hasReturn) && env.logging == g.logging
    requires st != [] && Agree(g, w, n, env.scopes, st) && env.scopes != []
    ensures var cond := LowerValue(stmt.cond, env.(nextLabel := env.nextLabel + if stmt.els.Some? then 2 else 1));
            var o, so := Exec(g.trees, w, n, cond.t, s), S.Exec(g.src, w, n, stmt, st, s.tr);
            (o.Done? ==> Same(Exec(g.trees, w, n, IfTree(stmt, env), o.s), so)) && (so.Done? ==> so.st == st)
    decreases n, S.Size(stmt), 0
  {
    hide *;
    var env0 := env.(nextLabel := env.nextLabel + if stmt.els.Some? then 2 else 1);
    var cond := LowerValue(stmt.cond, env0);
    LowerValueRight(g.trees, w, n, stmt.cond, env0, s);
    ValueFlag(stmt.cond, env0);
    IfParts(stmt, env);
    var s1 := Exec(g.trees, w, n, cond.t, s).s;
    var body := LowerScope(stmt.thn, cond.env);
    LowerScopeRight(g, w, n, stmt.thn, cond.env, st, s1);
    RightIs(g, w, n, body, s1, S.ExecScope(g.src, w, n, stmt.thn, st, s1.tr));
    if stmt.els.Some? {
      var env2 := body.env.(hasReturn := false);
      LowerScopeRight(g, w, n, stmt.els.value, env2, st, s1);
      RightIs(g, w, n, LowerScope(stmt.els.value, env2), s1, S.ExecScope(g.src, w, n, stmt.els.value, st, s1.tr));
    } else {
      DoneSame(s1, st);
    }
    IfRuns(g.trees, w, n, stmt, env, s1);
    IfSource(g.src, w, n, stmt, st, s.tr);
  }

  lemma DoneSame(s: State, st: S.Defers)
    ensures Same(Done(s), S.Done(st, s.tr))
  {}

  /** What is known of the parts of a conditional. */
  lemma IfParts(stmt: S.Stmt, env: Env)
    requires stmt.If? && env.scopes != []
    ensures var cond := LowerValue(stmt.cond, env.(nextLabel := env.nextLabel + if stmt.els.Some? then 2 else 1));
            cond.env.scopes == env.scopes && cond.env.logging == env.logging &&
            (S.Exits(stmt, env.hasReturn) ==>
               S.ExitsScope(stmt.thn, env.hasReturn && !S.Branches(stmt.cond)) &&
               (stmt.els.Some? ==> S.ExitsScope(stmt.els.value, false)))
    ensures S.Size(stmt.thn) < S.Size(stmt) && (stmt.els.Some? ==> S.Size(stmt.els.value) < S.Size(stmt))
  {
    hide LowerValue, S.ExitsScope, S.Branches;
  }

  lemma IfRuns(prog: seq<Tree>, w: Oracle, n: nat, stmt: S.Stmt, env: Env, s: State)
    requires stmt.If? && env.scopes != []
    ensures var cond := LowerValue(stmt.cond, env.(nextLabel := env.nextLabel + if stmt.els.Some? then 2 else 1));
            cond.env.scopes == env.scopes &&
            var body := LowerScope(stmt.thn, cond.env);
            Exec(prog, w, n, IfTree(stmt, env), s) ==
              if Value(cond.r, s.m) then Exec(prog, w, n, body.t, s)
              else if stmt.els.Some? then Exec(prog, w, n, LowerScope(stmt.els.value, body.env.(hasReturn := false)).t, s)
              else Done(s)
  {
    hide LowerValue, LowerScope, Value;
  }

  lemma IfSource(src: seq<S.Stmt>, w: Oracle, n: nat, stmt: S.Stmt, st: S.Defers, tr: Trace)
    requires stmt.If? && st != []
    ensures var r := S.Truth(w, stmt.cond, tr);
            S.Exec(src, w, n, stmt, st, tr) ==
              if r.b then S.ExecScope(src, w, n, stmt.thn, st, r.tr)
              else if stmt.els.Some? then S.ExecScope(src, w, n, stmt.els.value, st, r.tr) else S.Done(st, r.tr)
  {
    hide S.Truth, S.ExecScope;
  }

  lemma ValueFlag(e: S.Expr, env: Env)
    ensures LowerValue(e, env).env.hasReturn == (env.hasReturn && !S.Branches(e))
  {
    ExprFlag(e, false, env);
  }

  lemma {:induction false} LowerWhileRight(g: Program, w: Oracle, n: nat, stmt: S.Stmt, env: Env, st: S.Defers, s: State)
    requires g.Compiled() && stmt.While? && S.Exits(stmt, env.hasReturn) && env.logging == g.logging
    requires st != [] && Agree(g, w, n, env.scopes, st)
    ensures Right(g, w, n, Lower(stmt, env), s, S.Exec(g.src, w, n, stmt, st, s.tr))
    decreases n, S.Size(stmt), 1
  {
    var env0 := env.(nextLabel := env.nextLabel + 2, hasReturn := false);
    var cond := LowerValue(stmt.cond, env0);
    var body := LowerScope(stmt.body, cond.env);
    var t := Loop(cond.t, cond.r, body.t, env.nextLabel, env.nextLabel + 1);
    LoopRight(g, w, n, stmt, env, st, s, t);
    Noted(g.trees, w, n, env, t, s);
  }

  lemma {:induction false} LoopRight(g: Program, w: Oracle, n: nat, stmt: S.Stmt, env: Env, st: S.Defers, s: State, t: Tree)
    requires g.Compiled() && stmt.While? && S.Exits(stmt, env.hasReturn) && env.logging == g.logging
    requires st != [] && Agree(g, w, n, env.scopes, st)
    requires var cond := LowerValue(stmt.cond, env.(nextLabel := env.nextLabel + 2, hasReturn := false));
             t == Loop(cond.t, cond.r, LowerScope(stmt.body, cond.env).t, env.nextLabel, env.nextLabel + 1)
    ensures Same(Exec(g.trees, w, n, t, s), S.Exec(g.src, w, n, stmt, st, s.tr))
    ensures var so := S.Exec(g.src, w, n, stmt, st, s.tr); so.Done? ==> so.st == st
    decreases n, S.Size(stmt), 0
  {
    if n > 0 {
      var env0 := env.(nextLabel := env.nextLabel + 2, hasReturn := false);
      var cond := LowerValue(stmt.cond, env0);
      LowerValueRight(g.trees, w, n, stmt.cond, env0, s);
      ExprFlag(stmt.cond, false, env0);
      var s1 := Exec(g.trees, w, n, cond.t, s).s;
      if Value(cond.r, s1.m) {
        LowerScopeRight(g, w, n, stmt.body, cond.env, st, s1);
        var o := Exec(g.trees, w, n, LowerScope(stmt.body, cond.env).t, s1);
        if o.Done? {
          AgreeLess(g, w, n, n - 1, env.scopes, st);
          LoopRight(g, w, n - 1, stmt, env, st, o.s, t);
        }
      }
    }
  }

  /** After recording, the new static stack tracks the new dynamic stack, although nested defers may have
      put several recordings where the dynamic stack holds one statement. */
  lemma {:induction false} LowerDeferRight(g: Program, w: Oracle, n: nat, d: S.Stmt, env: Env, st: S.Defers)
    requires g.Compiled() && S.Exits(d, env.hasReturn) && env.logging == g.logging
    requires st != [] && Agree(g, w, n, env.scopes, st)
    ensures Agree(g, w, n, Lower(S.Defer(d), env).env.scopes, [[d] + st[0]] + st[1..])
    decreases n, S.Size(d), 5
  {
    var c := Lower(d, env);
    var t := Then(Note(env), Then(c.t, Note(env)));
    var ds := [t] + c.env.scopes[0];
    var st' := [[d] + st[0]] + st[1..];
    forall k: nat, s: State | k <= n
      ensures Same(ExecList(g.trees, w, k, ds, s), S.Unwind(g.src, w, k, st', s.tr))
    {
      TracksPushed(g, w, k, d, env, st, s);
    }
    assert Tracks(g, w, n, ds, st');
    AgreeTail(g, w, n, env.scopes, st);
    var scopes' := [ds] + c.env.scopes[1..];
    assert scopes'[1..] == env.scopes[1..] && st'[1..] == st[1..];
    AgreeCons(g, w, n, scopes', st');
  }

  lemma {:induction false} TracksPushed(g: Program, w: Oracle, k: nat, d: S.Stmt, env: Env, st: S.Defers, s: State)
    requires g.Compiled() && S.Exits(d, env.hasReturn) && env.logging == g.logging
    requires st != [] && Agree(g, w, k, env.scopes, st)
    ensures var c := Lower(d, env);
            var ds := [Then(Note(env), Then(c.t, Note(env)))] + c.env.scopes[0];
            var u := S.Unwind(g.src, w, k, [[d] + st[0]] + st[1..], s.tr);
            Same(ExecList(g.trees, w, k, ds, s), u)
    decreases k, S.Size(d), 3
  {
    var c := Lower(d, env);
    var t := Then(Note(env), Then(c.t, Note(env)));
    var ds := [t] + c.env.scopes[0];
    var st' := [[d] + st[0]] + st[1..];
    assert [st'[0][1..]] + st'[1..] == st;
    LowerRight(g, w, k, d, env, st, s);
    Noted(g.trees, w, k, env, c.t, s);
    var so := S.Exec(g.src, w, k, d, st, s.tr);
    assert ds[0] == t && ds[1..] == c.env.scopes[0];
    if so.Done? {
      var o := Exec(g.trees, w, k, c.t, s);
      AgreeHead(g, w, k, c.env.scopes, so.st);
    }
  }

  /** Return: every open scope of the proc is unwound, innermost first, and only then the argument evaluated. */
  lemma {:induction false} LowerReturnRight(g: Program, w: Oracle, n: nat, arg: Option<S.Expr>, env: Env, st: S.Defers, s: State)
    requires g.Compiled() && env.logging == g.logging
    requires st != [] && Agree(g, w, n, env.scopes, st) && !env.hasReturn
    ensures Right(g, w, n, Lower(S.Return(arg), env), s, S.Exec(g.src, w, n, S.Return(arg), st, s.tr))
    decreases n, 0, 0
  {
    ReplayAllRight(g, w, n, env.scopes, st, env, s);
    var ds := EmitDefers(env.scopes, env);
    var o := Exec(g.trees, w, n, ds.t, s);
    if arg.None? {
      ExecThen(g.trees, w, n, ds.t, Op(Ret(NoRef)), s);
    } else {
      var v := LowerValue(arg.value, ds.env);
      ExecThen(g.trees, w, n, ds.t, Then(v.t, Op(Ret(v.r))), s);
      if o.Done? {
        LowerValueRight(g.trees, w, n, arg.value, ds.env, o.s);
        ExecThen(g.trees, w, n, v.t, Op(Ret(v.r)), o.s);
      }
    }
  }

  /** Return with the flag raised: as if nothing were pending anywhere, which agrees with the source exactly when
      unwinding what is pending would have come to the same. */
  lemma LowerReturnSkips(g: Program, w: Oracle, n: nat, arg: Option<S.Expr>, env: Env, st: S.Defers, s: State)
    requires env.scopes != [] && env.hasReturn && st != []
    ensures var o := Exec(g.trees, w, n, Lower(S.Return(arg), env).t, s);
            var so, none := S.Exec(g.src, w, n, S.Return(arg), st, s.tr), S.Exec(g.src, w, n, S.Return(arg), [[]], s.tr);
            Same(o, none) && (Same(o, so) <==> so == none)
  {
    NothingPending(g.src, w, n, s.tr);
    if arg.None? {
      ExecThen(g.trees, w, n, Nil, Op(Ret(NoRef)), s);
    } else {
      var v := LowerValue(arg.value, env);
      LowerValueRight(g.trees, w, n, arg.value, env, s);
      ExecThen(g.trees, w, n, Nil, Then(v.t, Op(Ret(v.r))), s);
      ExecThen(g.trees, w, n, v.t, Op(Ret(v.r)), s);
    }
  }

  lemma NothingPending(prog: seq<S.Stmt>, w: Oracle, n: nat, tr: Trace)
    ensures S.UnwindAll(prog, w, n, [[]], tr) == S.Done([], tr)
  {
    var st: S.Defers := [[]];
    assert st[1..] == [];
  }

  /** A body compiled as a proc, its inner exits being in order, runs off its end exactly when its source gets to
      the end with the flag raised; in every other run, and in no such run, it does what its source does. */
  lemma {:induction false} LowerBodyExact(g: Program, w: Oracle, n: nat, body: S.Stmt, first: nat, tr: Trace)
    requires g.Compiled() && S.Exits(body, false)
    ensures var o := Exec(g.trees, w, n, LowerProc(body, first, g.logging).t, State(tr, map[]));
            var fails := S.Raised(body, false) && S.Exec(g.src, w, n, body, [[]], tr).Done?;
            (o.Done? <==> fails) && (Same(o, S.RunBody(g.src, w, n, body, tr)) <==> !fails)
    decreases n, S.Size(body) + 1, 0
  {
    hide Lower, Agree, S.Exec, BodyEnd, S.Raised, S.Exits, Program.Compiled, LowerProc;
    var s := State(tr, map[]);
    var env := BodyEnv(first, g.logging);
    BodyStarts(g, w, n, body, env, s);
    FlagIsRaised(body, env);
    BodyCode(g.trees, w, n, body, first, g.logging, s);
    var c := Lower(body, env);
    var so := S.Exec(g.src, w, n, body, [[]], tr);
    ExecThen(g.trees, w, n, c.t, BodyEnd(Finished(c.env)), s);
    if so.Done? { BodyEnds(g, w, n, Finished(c.env), so.st, Exec(g.trees, w, n, c.t, s).s); }
    hide Exec, S.Unwind;
  }

  lemma {:induction false} BodyStarts(g: Program, w: Oracle, n: nat, body: S.Stmt, env: Env, s: State)
    requires g.Compiled() && S.Exits(body, false)
    requires env.scopes == [[]] && !env.hasReturn && env.logging == g.logging
    ensures Right(g, w, n, Lower(body, env), s, S.Exec(g.src, w, n, body, [[]], s.tr))
    decreases n, S.Size(body), 3
  {
    assert Agree(g, w, n, [], []) && [[]] + [] == env.scopes;
    FreshScopeAgrees(g, w, n, [], []);
    LowerRight(g, w, n, body, env, [[]], s);
  }

  /** What is emitted behind a proc's body. */
  function BodyEnd(env: Env): Tree {
    var ds := EmitDefers(env.scopes, env);
    Then(ds.t, if ds.env.hasReturn then Nil else Op(Ret(NoRef)))
  }

  lemma BodyCode(prog: seq<Tree>, w: Oracle, n: nat, body: S.Stmt, first: nat, logging: bool, s: State)
    ensures var c := Lower(body, BodyEnv(first, logging));
            Exec(prog, w, n, LowerProc(body, first, logging).t, s) == Exec(prog, w, n, Then(c.t, BodyEnd(Finished(c.env))), s)
  {
    var c := Lower(body, BodyEnv(first, logging));
    ExecThen(prog, w, n, Op(Label(first)), Then(c.t, BodyEnd(Finished(c.env))), s);
    hide Lower;
  }

  lemma BodyEnds(g: Program, w: Oracle, n: nat, env: Env, st: S.Defers, s: State)
    requires |env.scopes| == 1 == |st| && Agree(g, w, n, env.scopes, st)
    ensures var o, u := Exec(g.trees, w, n, BodyEnd(env), s), S.Unwind(g.src, w, n, st, s.tr);
            if env.hasReturn then o == Done(s)
            else Same(o, if u.Done? then S.Returned(u.tr + [EvRet(None)], None) else u)
  {
    assert env.scopes == [env.scopes[0]];
    var ds := EmitDefers(env.scopes, env);
    var ret := if ds.env.hasReturn then Nil else Op(Ret(NoRef));
    ExecThen(g.trees, w, n, ds.t, ret, s);
    if !env.hasReturn { EndReplayed(g, w, n, env, st, s); }
  }

  /** A compiled proc does what its source does: defers run once per scope exit, latest first. */
  lemma {:induction false} LowerProcRight(g: Program, w: Oracle, n: nat, p: nat, tr: Trace)
    requires g.Compiled() && p < |g.src|
    ensures Same(Exec(g.trees, w, n, g.trees[p], State(tr, map[])), S.RunProc(g.src, w, n, p, tr))
    decreases n, S.Size(g.src[p]) + 1, 1
  {
    LowerBodyExact(g, w, n, g.src[p], g.starts[p], tr);
    if S.NeverEnds(g.src[p]) { NeverEndsNeverDone(g.src, w, n, g.src[p], [[]], tr); }
  }
}
